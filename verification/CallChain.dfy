/** The backward search from a target binary to the init program (CallChainConstructor).
    What the firmware's files say about each other is a fixed, arbitrary input. */
module CallChain {
  import opened Options
  import opened Digraph
  import opened Strings

  type Path = string

  /** Everything the search asks of the unpacked file system and of its analysers. */
  datatype Firmware = Firmware(
    executables: set<Path>,
    elfFiles: set<Path>,
    mentions: (Path, Path) -> bool,     // a file's strings mention a program
    callees: Path -> seq<Path>,         // confirmed callees of a file, in iteration order
    symbol2file: map<Path, Path>,
    file2symbol: map<Path, set<Path>>)

  /** `procd` is present exactly when that program is the init process. */
  datatype Entry = Entry(init: Path, initIsBusybox: bool, bash: Option<Path>, procd: Option<Path>, httpPhp: bool)

  datatype Job = Job(entry: Entry, target: Path, targetArgument: Path)

  datatype Outcome = Found(chain: seq<Path>) | NotFound | Capped

  const ROUND_CAP: int := 20

  function BaseName(p: Path): string {
    if p == "" || p[|p| - 1] == '/' then "" else BaseName(p[..|p| - 1]) + [p[|p| - 1]]
  }

  // ----- what the search consults -----

  function StringCallers(fw: Firmware, target: Path): set<Path> {
    var hits := set f | f in fw.executables && f != target && fw.mentions(f, target);
    if target in fw.symbol2file then hits - {fw.symbol2file[target]} else hits
  }

  function PotentialCallers(fw: Firmware, job: Job, current: Path): set<Path> {
    var direct := StringCallers(fw, current) - {job.target};
    if direct == {} && current in fw.file2symbol then
      set sym, f | sym in fw.file2symbol[current] && f in StringCallers(fw, sym) :: f
    else direct
  }

  predicate NamesCurrent(fw: Firmware, current: Path, callee: Path) {
    || BaseName(current) == BaseName(callee)
    || (callee in fw.symbol2file && BaseName(fw.symbol2file[callee]) == BaseName(BaseName(current)))
  }

  predicate ExcludedSelf(fw: Firmware, job: Job, caller: Path) {
    job.targetArgument == caller && caller in fw.elfFiles
  }

  /** The fixed relation "caller is confirmed to call current". */
  predicate Calls(fw: Firmware, job: Job, caller: Path, current: Path) {
    && caller in PotentialCallers(fw, job, current)
    && !ExcludedSelf(fw, job, caller)
    && exists callee | callee in fw.callees(caller) :: NamesCurrent(fw, current, callee)
  }

  /** Edges added before the search, with no path test. */
  function SeedEdges(job: Job): set<(Path, Path)> {
    var e := job.entry;
    (if e.initIsBusybox && e.bash.Some? then {(e.init, e.bash.value)} else {})
    + (if e.procd.Some? then {(e.init, e.procd.value)} else {})
    + (if e.procd.Some? && e.bash.Some? then {(e.procd.value, e.bash.value)} else {})
    + (if e.httpPhp && e.bash.Some? then {(e.bash.value, job.target)} else {})
  }

  function SeedGraph(job: Job): (g: Graph<Path>)
    ensures WellFormed(g) && job.target in g.nodes
  {
    var s := SeedEdges(job);
    Graph({job.target} + (set e | e in s :: e.0) + (set e | e in s :: e.1), s)
  }

  /** Only the last directory is tied to busybox or procd: `and` binds tighter than `or`. */
  predicate LooksLikeInitScript(e: Entry, current: Path) {
    || Contains(current, "etc/init.d")
    || Contains(current, "etc/rc.d")
    || Contains(current, "etc_ro/init.d")
    || Contains(current, "etc_ro/rc.d")
    || Contains(current, "etc/rcS")
    || (Contains(current, "etc_ro/rcS") && (e.initIsBusybox || e.procd.Some?))
  }

  /** The program that is taken, untested, to start an init script. */
  function Shortcut(e: Entry, current: Path): Option<Path> {
    if !LooksLikeInitScript(e, current) then None
    else if e.bash.Some? then e.bash
    else e.procd
  }

  // ----- what is proved of the search -----

  ghost predicate KnownEdge(fw: Firmware, job: Job, u: Path, v: Path) {
    (u, v) in SeedEdges(job) || Calls(fw, job, u, v) || Shortcut(job.entry, v) == Some(u)
  }

  ghost predicate CallStep(fw: Firmware, job: Job, p: seq<Path>, i: nat)
    requires i + 1 < |p|
  {
    Calls(fw, job, p[i], p[i + 1])
  }

  /** A chain of confirmed calls to the target. */
  ghost predicate CallsToTarget(fw: Firmware, job: Job, p: seq<Path>) {
    && p != [] && p[|p| - 1] == job.target
    && forall i: nat :: i + 1 < |p| ==> CallStep(fw, job, p, i)
  }

  /** A chain of confirmed calls from init to the target. */
  ghost predicate ConfirmedChain(fw: Firmware, job: Job, p: seq<Path>) {
    CallsToTarget(fw, job, p) && p[0] == job.entry.init
  }

  /** The most general chain that the search finds: seed edges from init to s, then at most one
      shortcut edge, then the confirmed calls p. */
  ghost predicate StagedChain(fw: Firmware, job: Job, s: Path, p: seq<Path>) {
    && Reach(SeedGraph(job), job.entry.init, s) && CallsToTarget(fw, job, p)
    && (s == p[0] || Shortcut(job.entry, p[0]) == Some(s))
  }

  /** The same with at most n programs from s or its shortcut on. */
  ghost predicate StagedWithin(fw: Firmware, job: Job, n: nat) {
    exists s, p :: StagedChain(fw, job, s, p) && |p| <= n
  }

  ghost predicate CanCallTarget(fw: Firmware, job: Job, x: Path) {
    exists p :: CallsToTarget(fw, job, p) && p[0] == x
  }

  /** The same by a chain of at most n programs. */
  ghost predicate CanCallWithin(fw: Firmware, job: Job, x: Path, n: nat) {
    exists p :: CallsToTarget(fw, job, p) && p[0] == x && |p| <= n
  }

  /** All programs that can call the target, itself included. */
  ghost function TargetCallers(fw: Firmware, job: Job): (r: set<Path>)
    ensures r <= fw.executables + {job.target} && forall x :: x in r <==> CanCallTarget(fw, job, x)
  {
    forall x | CanCallTarget(fw, job, x) ensures x in fw.executables + {job.target} {
      CanCallIsKnown(fw, job, x);
    }
    set x | x in fw.executables + {job.target} && CanCallTarget(fw, job, x)
  }

  lemma CanCallIsKnown(fw: Firmware, job: Job, x: Path)
    requires CanCallTarget(fw, job, x)
    ensures x in fw.executables + {job.target}
  {
    hide Calls;
    var p :| CallsToTarget(fw, job, p) && p[0] == x;
    if |p| > 1 {
      assert CallStep(fw, job, p, 0);
      CallerInFirmware(fw, job, p[0], p[1]);
    }
  }

  /** An edge that the search may come to use: a seed, or a known edge into a program that can
      call the target. */
  ghost predicate UsableEdge(fw: Firmware, job: Job, u: Path, v: Path) {
    (u, v) in SeedEdges(job) || (KnownEdge(fw, job, u, v) && CanCallTarget(fw, job, v))
  }

  ghost predicate UsableStep(fw: Firmware, job: Job, w: seq<Path>, i: nat)
    requires i + 1 < |w|
  {
    UsableEdge(fw, job, w[i], w[i + 1])
  }

  ghost predicate UsableWalk(fw: Firmware, job: Job, w: seq<Path>) {
    w != [] && forall i: nat :: i + 1 < |w| ==> UsableStep(fw, job, w, i)
  }

  /** No init script that can call the target leads, by usable edges, to what starts it. Where
      one does, the course of the search decides whether the graph becomes cyclic. */
  ghost predicate NoWayBack(fw: Firmware, job: Job) {
    forall w :: UsableWalk(fw, job, w) && CanCallTarget(fw, job, w[0]) ==>
      Shortcut(job.entry, w[0]) != Some(w[|w| - 1])
  }

  ghost predicate Success(job: Job, g: Graph<Path>) {
    Reach(g, job.entry.init, job.target)
  }

  /** The chain handed out for graph g, before its paths are rewritten: a simple path no
      walk undercuts, or nothing when init is the target itself. */
  ghost predicate ShortestChain(job: Job, g: Graph<Path>, chain: seq<Path>) {
    if job.entry.init == job.target then chain == []
    else
      && SimplePath(g, chain, job.entry.init, job.target)
      && forall p :: WalkBetween(g, p, job.entry.init, job.target) ==> |chain| <= |p|
  }

  /** Every node ever queued: those taken from the worklist and those still on it. */
  ghost function Queued(expanded: seq<Path>, worklist: seq<Path>): set<Path> {
    Elements(expanded + worklist)
  }

  /** The queue: nothing twice, nothing but the target and executables, and each node in it
      reaches the target in the graph and by no more confirmed calls than there were rounds. */
  ghost predicate QueueInv(fw: Firmware, job: Job, g: Graph<Path>, expanded: seq<Path>,
                           worklist: seq<Path>, analyzed: set<Path>) {
    && Distinct(expanded + worklist)
    && job.target in Queued(expanded, worklist)
    && Queued(expanded, worklist) == analyzed + {job.target}
    && Queued(expanded, worklist) <= fw.executables + {job.target}
    && (forall x :: x in Queued(expanded, worklist) ==>
      x in g.nodes && Reach(g, x, job.target) && CanCallWithin(fw, job, x, |expanded| + 1))
    && forall x :: x in expanded ==> CanCallWithin(fw, job, x, |expanded|)
  }

  /** Every expanded node has its shortcut edge, if one fires for it. */
  ghost predicate ShortcutsAdded(job: Job, g: Graph<Path>, expanded: seq<Path>) {
    forall x :: x in expanded && Shortcut(job.entry, x).Some? ==> (Shortcut(job.entry, x).value, x) in g.edges
  }

  /** The edges: all seeds, all shortcuts of expanded nodes, nothing unknown, and nothing but
      seeds into a node that was not expanded. */
  ghost predicate EdgeInv(fw: Firmware, job: Job, g: Graph<Path>, expanded: seq<Path>) {
    && WellFormed(g) && SeedEdges(job) <= g.edges
    && (forall e :: e in g.edges ==> KnownEdge(fw, job, e.0, e.1))
    && (forall e :: e in g.edges ==> e in SeedEdges(job) || e.1 in expanded)
    && ShortcutsAdded(job, g, expanded)
  }

  /** The edges of g that were there when exactly the nodes in `done` had been expanded. */
  function EdgesInto(job: Job, g: Graph<Path>, done: seq<Path>): set<(Path, Path)> {
    set e | e in g.edges && (e in SeedEdges(job) || e.1 in done)
  }

  /** The shortcut of x, if one fires, starts at a program that x reaches in g. */
  ghost predicate ClosesCycle(job: Job, g: Graph<Path>, x: Path) {
    Shortcut(job.entry, x).Some? && Reach(g, x, Shortcut(job.entry, x).value)
  }

  /** `before` holds the graph as it was before each expansion. The graph is acyclic exactly
      when its seeds are and no shortcut, when it fired, started at what its script reached. */
  ghost predicate HistoryInv(job: Job, g: Graph<Path>, expanded: seq<Path>, before: seq<Graph<Path>>) {
    && |before| == |expanded|
    && (forall i :: 0 <= i < |before| ==> before[i].edges == EdgesInto(job, g, expanded[..i]))
    && (Acyclic(g) <==> Acyclic(SeedGraph(job)) && NeverCloses(job, expanded, before))
  }

  ghost predicate NeverCloses(job: Job, expanded: seq<Path>, before: seq<Graph<Path>>)
    requires |before| == |expanded|
  {
    forall i :: 0 <= i < |before| ==> !ClosesCycle(job, before[i], expanded[i])
  }

  /** What holds in every reachable state of the search. */
  ghost predicate SearchInv(fw: Firmware, job: Job, g: Graph<Path>, expanded: seq<Path>,
                            worklist: seq<Path>, analyzed: set<Path>) {
    && QueueInv(fw, job, g, expanded, worklist, analyzed)
    && EdgeInv(fw, job, g, expanded)
  }

  /** All confirmed callers of the nodes in `done` have been queued. */
  ghost predicate CallersQueued(fw: Firmware, job: Job, done: set<Path>, queued: set<Path>) {
    forall cur, caller :: cur in done && Calls(fw, job, caller, cur) ==> caller in queued
  }

  /** The edge of a confirmed call is in the graph, or would have closed a cycle. */
  ghost predicate Linked(g: Graph<Path>, caller: Path, cur: Path) {
    (caller, cur) in g.edges || Reach(g, cur, caller)
  }

  /** So it is for all confirmed calls to the nodes in `done`. */
  ghost predicate CallersLinked(fw: Firmware, job: Job, done: seq<Path>, g: Graph<Path>) {
    forall cur, caller :: cur in done && Calls(fw, job, caller, cur) ==> Linked(g, caller, cur)
  }

  // ----- lemmas -----

  lemma StaysLinked(fw: Firmware, job: Job, done: seq<Path>, g: Graph<Path>, h: Graph<Path>)
    requires CallersLinked(fw, job, done, g) && g.edges <= h.edges
    ensures CallersLinked(fw, job, done, h)
  {
    hide Calls, Reach;
    forall cur, caller | cur in done && Calls(fw, job, caller, cur) ensures Linked(h, caller, cur) {
      LinkStays(g, h, caller, cur);
    }
  }

  lemma LinkStays(g: Graph<Path>, h: Graph<Path>, caller: Path, cur: Path)
    requires Linked(g, caller, cur) && g.edges <= h.edges
    ensures Linked(h, caller, cur)
  {
    hide Reach;
    if Reach(g, cur, caller) {
      ReachMonotone(g, h, cur, caller);
    }
  }

  lemma CallersLinkedMore(fw: Firmware, job: Job, done: seq<Path>, cur: Path, g: Graph<Path>)
    requires CallersLinked(fw, job, done, g)
    requires forall x :: Calls(fw, job, x, cur) ==> Linked(g, x, cur)
    ensures CallersLinked(fw, job, done + [cur], g)
  {
    hide Calls, Linked;
  }

  lemma CallerIsPotential(fw: Firmware, job: Job, caller: Path, current: Path)
    requires Calls(fw, job, caller, current)
    ensures caller in PotentialCallers(fw, job, current)
  {
  }

  lemma CallerInFirmware(fw: Firmware, job: Job, caller: Path, current: Path)
    requires Calls(fw, job, caller, current)
    ensures caller in fw.executables
  {
  }

  /** Every seed edge starts at a node that init already reaches, or ends at the target. */
  lemma SeedsRooted(job: Job, u: Path, v: Path)
    requires (u, v) in SeedEdges(job)
    ensures Reach(SeedGraph(job), job.entry.init, u) || v == job.target
  {
    var g, e := SeedGraph(job), job.entry;
    ReachSelf(g, e.init);
    if e.procd.Some? {
      ReachEdge(g, e.init, e.procd.value);
    }
  }

  /** The seeded graph is acyclic whenever its four programs are four different files. */
  lemma SeedsAcyclic(job: Job)
    requires var e := job.entry;
      Distinct([e.init, job.target] + (if e.bash.Some? then [e.bash.value] else [])
                                    + (if e.procd.Some? then [e.procd.value] else []))
    ensures Acyclic(SeedGraph(job))
  {
    var e := job.entry;
    var all := [e.init, job.target] + (if e.bash.Some? then [e.bash.value] else [])
                                    + (if e.procd.Some? then [e.procd.value] else []);
    assert all[0] == e.init && all[1] == job.target;
    assert e.bash.Some? ==> all[2] == e.bash.value;
    assert e.procd.Some? ==> all[|all| - 1] == e.procd.value;
    var rank := (x: Path) =>
      if x == e.init then 0 else if e.procd == Some(x) then 1 else if e.bash == Some(x) then 2 else 3;
    RankedAcyclic(SeedGraph(job), rank);
  }

  /** The reason why the path test loses nothing: a caller that the current node already
      reaches has been queued before, unless init reaches the target already. */
  lemma KnownCallerQueued(fw: Firmware, job: Job, g: Graph<Path>, expanded: seq<Path>,
                          worklist: seq<Path>, analyzed: set<Path>, cur: Path, caller: Path)
    requires SearchInv(fw, job, g, expanded, worklist, analyzed)
    requires cur in Queued(expanded, worklist) && Reach(g, cur, caller)
    ensures caller in Queued(expanded, worklist) || Success(job, g)
  {
    var queued := Queued(expanded, worklist);
    if caller !in queued {
      var p :| WalkBetween(g, p, cur, caller);
      var i := BorderCrossing(g, queued, p);
      SeedsRooted(job, p[i], p[i + 1]);
      ReachMonotone(SeedGraph(job), g, job.entry.init, p[i]);
      ReachTrans(g, job.entry.init, p[i], job.target);
    }
  }

  /** Adding the edge of a confirmed call keeps what holds of edges. */
  lemma CallEdgeKeepsInv(fw: Firmware, job: Job, g: Graph<Path>, expanded: seq<Path>, cur: Path, caller: Path)
    requires EdgeInv(fw, job, g, expanded) && cur in expanded && Calls(fw, job, caller, cur)
    ensures EdgeInv(fw, job, AddEdge(g, caller, cur), expanded)
  {
    hide Calls, SeedEdges, Shortcut;
  }

  /** An edge into the node that is being expanded is no edge of an earlier graph. */
  lemma HistoryOfEdge(job: Job, g: Graph<Path>, expanded: seq<Path>, before: seq<Graph<Path>>, caller: Path)
    requires |before| == |expanded| && expanded != [] && Distinct(expanded) && SeedEdges(job) <= g.edges
    requires forall i :: 0 <= i < |before| ==> before[i].edges == EdgesInto(job, g, expanded[..i])
    ensures var h := AddEdge(g, caller, expanded[|expanded| - 1]);
      forall i :: 0 <= i < |before| ==> before[i].edges == EdgesInto(job, h, expanded[..i])
  {
    hide SeedEdges;
    var h := AddEdge(g, caller, expanded[|expanded| - 1]);
    forall i | 0 <= i < |before| ensures EdgesInto(job, h, expanded[..i]) == EdgesInto(job, g, expanded[..i]) {
      assert expanded[|expanded| - 1] !in expanded[..i];
    }
  }

  /** The edge (caller, cur), with no path the other way, leaves the graph acyclic or cyclic. */
  lemma CallEdgeKeepsHistory(job: Job, g: Graph<Path>, expanded: seq<Path>, before: seq<Graph<Path>>, caller: Path)
    requires HistoryInv(job, g, expanded, before) && expanded != [] && Distinct(expanded)
    requires SeedEdges(job) <= g.edges && !Reach(g, expanded[|expanded| - 1], caller)
    ensures HistoryInv(job, AddEdge(g, caller, expanded[|expanded| - 1]), expanded, before)
  {
    hide SeedEdges, Reach, Acyclic, EdgesInto, NeverCloses, Distinct;
    HistoryOfEdge(job, g, expanded, before, caller);
    AcyclicAddEdge(g, caller, expanded[|expanded| - 1]);
  }

  lemma CallerCanCall(fw: Firmware, job: Job, caller: Path, cur: Path, n: nat)
    requires Calls(fw, job, caller, cur) && CanCallWithin(fw, job, cur, n)
    ensures CanCallWithin(fw, job, caller, n + 1)
  {
    hide Calls;
    var p :| CallsToTarget(fw, job, p) && p[0] == cur && |p| <= n;
    var q := [caller] + p;
    forall i: nat | i + 1 < |q| ensures CallStep(fw, job, q, i) {
      if i > 0 {
        assert CallStep(fw, job, p, i - 1);
      }
    }
    assert CallsToTarget(fw, job, q);
  }

  /** Queueing the caller keeps what holds of the queue. */
  lemma QueueCallerKeepsInv(fw: Firmware, job: Job, g: Graph<Path>, expanded: seq<Path>,
                            worklist: seq<Path>, analyzed: set<Path>, cur: Path, caller: Path)
    requires QueueInv(fw, job, g, expanded, worklist, analyzed)
    requires cur in expanded && Calls(fw, job, caller, cur)
    ensures QueueInv(fw, job, AddEdge(g, caller, cur), expanded, worklist, analyzed)
    ensures caller !in Queued(expanded, worklist) ==>
      QueueInv(fw, job, AddEdge(g, caller, cur), expanded, worklist + [caller], analyzed + {caller})
  {
    hide Calls, CanCallWithin, Reach;
    var h, queued := AddEdge(g, caller, cur), Queued(expanded, worklist);
    assert cur in expanded + worklist;
    forall x | x in queued ensures Reach(h, x, job.target) {
      ReachMonotone(g, h, x, job.target);
    }
    ReachEdge(h, caller, cur);
    ReachTrans(h, caller, cur, job.target);
    CallerCanCall(fw, job, caller, cur, |expanded|);
    CallerInFirmware(fw, job, caller, cur);
    assert expanded + (worklist + [caller]) == (expanded + worklist) + [caller];
    assert Queued(expanded, worklist + [caller]) == queued + {caller};
  }

  /** Both guarded insertions keep the search invariant, and the graph as acyclic as it was. */
  lemma AddCallerKeepsInv(fw: Firmware, job: Job, g: Graph<Path>, expanded: seq<Path>,
                          worklist: seq<Path>, analyzed: set<Path>, before: seq<Graph<Path>>, caller: Path)
    requires SearchInv(fw, job, g, expanded, worklist, analyzed) && HistoryInv(job, g, expanded, before)
    requires expanded != [] && Calls(fw, job, caller, expanded[|expanded| - 1])
    requires !Reach(g, expanded[|expanded| - 1], caller)
    ensures HistoryInv(job, AddEdge(g, caller, expanded[|expanded| - 1]), expanded, before)
    ensures caller in analyzed ==>
      SearchInv(fw, job, AddEdge(g, caller, expanded[|expanded| - 1]), expanded, worklist, analyzed)
    ensures caller !in analyzed && job.target in analyzed ==>
      SearchInv(fw, job, AddEdge(g, caller, expanded[|expanded| - 1]), expanded, worklist + [caller], analyzed + {caller})
  {
    hide Calls, Reach, CanCallWithin, HistoryInv, SeedEdges, KnownEdge, ShortcutsAdded;
    var cur := expanded[|expanded| - 1];
    assert Distinct(expanded) by {
      assert forall i :: 0 <= i < |expanded| ==> (expanded + worklist)[i] == expanded[i];
    }
    CallEdgeKeepsHistory(job, g, expanded, before, caller);
    QueueCallerKeepsInv(fw, job, g, expanded, worklist, analyzed, cur, caller);
    CallEdgeKeepsInv(fw, job, g, expanded, cur, caller);
  }

  lemma QueuedGrows(expanded: seq<Path>, worklist: seq<Path>, longer: seq<Path>)
    requires worklist <= longer
    ensures Queued(expanded, worklist) <= Queued(expanded, longer)
  {
    forall x | x in expanded + worklist ensures x in expanded + longer {
      assert x in worklist ==> x in longer;
    }
  }

  lemma CallersQueuedMore(fw: Firmware, job: Job, done: seq<Path>, cur: Path, queued: set<Path>, more: set<Path>)
    requires CallersQueued(fw, job, Elements(done), queued) && queued <= more
    requires forall x :: Calls(fw, job, x, cur) ==> x in more
    ensures CallersQueued(fw, job, Elements(done + [cur]), more)
  {
    hide Calls;
  }

  lemma CallerQueued(fw: Firmware, job: Job, g: Graph<Path>, expanded: seq<Path>,
                     worklist: seq<Path>, analyzed: set<Path>, caller: Path)
    requires SearchInv(fw, job, g, expanded, worklist, analyzed) && caller in analyzed + {job.target}
    ensures caller in Queued(expanded, worklist)
  {
  }

  /** Moving the last element of the second list between the two. */
  lemma RotateLast(expanded: seq<Path>, worklist: seq<Path>)
    requires worklist != []
    ensures var cur, rest := worklist[|worklist| - 1], worklist[..|worklist| - 1];
      && Queued(expanded + [cur], rest) == Queued(expanded, worklist)
      && (Distinct(expanded + worklist) ==> Distinct(expanded + [cur] + rest))
  {
    var cur, rest := worklist[|worklist| - 1], worklist[..|worklist| - 1];
    var now, was, k := expanded + [cur] + rest, expanded + worklist, |expanded|;
    assert forall i :: 0 <= i < |now| ==> now[i] == was[if i < k then i else if i == k then |was| - 1 else i - 1];
    assert worklist == rest + [cur];
  }

  /** The graph after the untested shortcut edge of the node that is being expanded. */
  function WithShortcut(job: Job, g: Graph<Path>, cur: Path): Graph<Path> {
    var starter := Shortcut(job.entry, cur);
    if starter.Some? then AddEdge(g, starter.value, cur) else g
  }

  lemma ShortcutEdgeKeepsInv(fw: Firmware, job: Job, g: Graph<Path>, expanded: seq<Path>, cur: Path)
    requires EdgeInv(fw, job, g, expanded)
    ensures EdgeInv(fw, job, WithShortcut(job, g, cur), expanded + [cur])
  {
    hide Calls, SeedEdges, Shortcut;
  }

  /** The untested edge keeps an acyclic graph acyclic exactly when the script did not reach
      its starter. */
  lemma ShortcutAcyclicIff(job: Job, g: Graph<Path>, cur: Path)
    ensures Acyclic(WithShortcut(job, g, cur)) <==> Acyclic(g) && !ClosesCycle(job, g, cur)
  {
    hide Shortcut, Acyclic, Reach;
    if Shortcut(job.entry, cur).Some? {
      AcyclicAddEdge(g, Shortcut(job.entry, cur).value, cur);
    }
  }

  lemma ShortcutEdgeKeepsHistory(job: Job, g: Graph<Path>, expanded: seq<Path>, before: seq<Graph<Path>>, cur: Path)
    requires HistoryInv(job, g, expanded, before) && Distinct(expanded + [cur])
    requires SeedEdges(job) <= g.edges && forall e :: e in g.edges ==> e in SeedEdges(job) || e.1 in expanded
    ensures HistoryInv(job, WithShortcut(job, g, cur), expanded + [cur], before + [g])
  {
    hide SeedEdges, Reach, Acyclic, Distinct, Shortcut, ClosesCycle;
    var h, all, log := WithShortcut(job, g, cur), expanded + [cur], before + [g];
    assert all[..|expanded|] == expanded && EdgesInto(job, g, expanded) == g.edges;
    assert forall i :: 0 <= i < |before| ==> all[..i] == expanded[..i];
    NeverClosesSnoc(job, expanded, before, cur, g);
    ShortcutAcyclicIff(job, g, cur);
    if Shortcut(job.entry, cur).Some? {
      HistoryOfEdge(job, g, all, log, Shortcut(job.entry, cur).value);
    }
  }

  lemma NeverClosesSnoc(job: Job, expanded: seq<Path>, before: seq<Graph<Path>>, cur: Path, g: Graph<Path>)
    requires |before| == |expanded|
    ensures NeverCloses(job, expanded + [cur], before + [g]) <==>
      NeverCloses(job, expanded, before) && !ClosesCycle(job, g, cur)
  {
    hide ClosesCycle;
    var all, log := expanded + [cur], before + [g];
    assert log[|before|] == g && all[|before|] == cur;
    assert forall i :: 0 <= i < |before| ==> log[i] == before[i] && all[i] == expanded[i];
  }

  /** Taking the last worklist entry, with its shortcut edge, keeps the search invariant. */
  lemma ExpandKeepsInv(fw: Firmware, job: Job, g: Graph<Path>, expanded: seq<Path>,
                       worklist: seq<Path>, analyzed: set<Path>, before: seq<Graph<Path>>)
    requires SearchInv(fw, job, g, expanded, worklist, analyzed) && HistoryInv(job, g, expanded, before)
    requires worklist != []
    ensures var cur, rest := worklist[|worklist| - 1], worklist[..|worklist| - 1];
      && Queued(expanded + [cur], rest) == Queued(expanded, worklist)
      && SearchInv(fw, job, WithShortcut(job, g, cur), expanded + [cur], rest, analyzed + {cur})
      && HistoryInv(job, WithShortcut(job, g, cur), expanded + [cur], before + [g])
  {
    hide Reach, CanCallWithin, Shortcut, SeedEdges, KnownEdge, HistoryInv, ShortcutsAdded;
    var cur, rest := worklist[|worklist| - 1], worklist[..|worklist| - 1];
    var h, queued := WithShortcut(job, g, cur), Queued(expanded, worklist);
    RotateLast(expanded, worklist);
    assert cur in expanded + worklist;
    assert Distinct(expanded + [cur]) by {
      assert forall i :: 0 <= i <= |expanded| ==> (expanded + [cur] + rest)[i] == (expanded + [cur])[i];
    }
    ShortcutEdgeKeepsInv(fw, job, g, expanded, cur);
    ShortcutEdgeKeepsHistory(job, g, expanded, before, cur);
    forall x | x in queued ensures x in h.nodes && Reach(h, x, job.target) {
      ReachMonotone(g, h, x, job.target);
    }
    forall x, n: nat | CanCallWithin(fw, job, x, n) ensures CanCallWithin(fw, job, x, n + 1) {
      WithinMore(fw, job, x, n);
    }
  }

  lemma WithinMore(fw: Firmware, job: Job, x: Path, n: nat)
    requires CanCallWithin(fw, job, x, n)
    ensures CanCallWithin(fw, job, x, n + 1) && CanCallTarget(fw, job, x)
  {
    hide CallsToTarget;
  }

  lemma SeedInvariant(fw: Firmware, job: Job)
    ensures SearchInv(fw, job, SeedGraph(job), [], [job.target], {})
    ensures HistoryInv(job, SeedGraph(job), [], []) && CallersQueued(fw, job, Elements([]), Queued([], [job.target]))
    ensures CallersLinked(fw, job, [], SeedGraph(job))
  {
    hide Calls, SeedEdges, Shortcut, Acyclic;
    ReachSelf(SeedGraph(job), job.target);
    assert CallsToTarget(fw, job, [job.target]);
  }

  lemma CallsTheTarget(fw: Firmware, job: Job, x: Path)
    requires Calls(fw, job, x, job.target)
    ensures x in TargetCallers(fw, job)
  {
    hide Calls;
    assert CallsToTarget(fw, job, [job.target]);
    assert CanCallWithin(fw, job, job.target, 1);
    CallerCanCall(fw, job, x, job.target, 1);
    WithinMore(fw, job, x, 2);
  }

  lemma TargetCallersBound(fw: Firmware, job: Job)
    ensures |TargetCallers(fw, job)| <= |fw.executables| + 1
  {
    hide TargetCallers, CanCallTarget;
    SubsetSize(TargetCallers(fw, job), fw.executables + {job.target});
  }

  /** What the queue holds can call the target; an empty worklist has found all that can. */
  lemma QueuedCanCall(fw: Firmware, job: Job, g: Graph<Path>, expanded: seq<Path>,
                      worklist: seq<Path>, analyzed: set<Path>)
    requires SearchInv(fw, job, g, expanded, worklist, analyzed)
    ensures Queued(expanded, worklist) <= TargetCallers(fw, job)
    ensures |expanded| + |worklist| <= |TargetCallers(fw, job)|
    ensures worklist == [] && CallersQueued(fw, job, Elements(expanded), Queued(expanded, worklist)) ==>
      Elements(expanded) == TargetCallers(fw, job) && |expanded| == |TargetCallers(fw, job)|
  {
    hide EdgeInv, Reach, CanCallWithin, CanCallTarget, Calls;
    forall x | x in Queued(expanded, worklist) ensures x in TargetCallers(fw, job) {
      WithinMore(fw, job, x, |expanded| + 1);
    }
    DistinctBound(expanded + worklist, TargetCallers(fw, job));
    if worklist == [] && CallersQueued(fw, job, Elements(expanded), Queued(expanded, worklist)) {
      assert expanded + [] == expanded;
      forall x | x in TargetCallers(fw, job) ensures x in expanded {
        AllCanCallQueued(fw, job, Elements(expanded), x);
      }
      DistinctSize(expanded);
    }
  }

  lemma AllCanCallQueued(fw: Firmware, job: Job, queued: set<Path>, x: Path)
    requires CanCallTarget(fw, job, x) && job.target in queued && CallersQueued(fw, job, queued, queued)
    ensures x in queued
  {
    hide CallStep;
    var p :| CallsToTarget(fw, job, p) && p[0] == x;
    ChainQueued(fw, job, queued, p, |p| - 1);
  }

  /** A condition on the input: with acyclic seeds and no usable way from an init script to what
      starts it, the graph is acyclic throughout. */
  lemma NoWayBackAcyclic(fw: Firmware, job: Job, g: Graph<Path>, expanded: seq<Path>,
                         worklist: seq<Path>, analyzed: set<Path>, before: seq<Graph<Path>>)
    requires SearchInv(fw, job, g, expanded, worklist, analyzed) && HistoryInv(job, g, expanded, before)
    ensures Acyclic(SeedGraph(job)) && NoWayBack(fw, job) ==> Acyclic(g)
  {
    hide KnownEdge, SeedEdges, Shortcut, Acyclic, CanCallWithin, CanCallTarget, NoWayBack;
    QueuedCanCall(fw, job, g, expanded, worklist, analyzed);
    forall i | 0 <= i < |before| && NoWayBack(fw, job) ensures !ClosesCycle(job, before[i], expanded[i]) {
      assert expanded[i] == (expanded + worklist)[i];
      if ClosesCycle(job, before[i], expanded[i]) {
        var w :| WalkBetween(before[i], w, expanded[i], Shortcut(job.entry, expanded[i]).value);
        WalkIsUsable(fw, job, g, expanded, worklist, before[i], w);
        NoWayBackAt(fw, job, w);
        assert false;
      }
    }
  }

  lemma NoWayBackAt(fw: Firmware, job: Job, w: seq<Path>)
    requires NoWayBack(fw, job) && UsableWalk(fw, job, w) && CanCallTarget(fw, job, w[0])
    ensures Shortcut(job.entry, w[0]) != Some(w[|w| - 1])
  {
  }

  lemma WalkIsUsable(fw: Firmware, job: Job, g: Graph<Path>, expanded: seq<Path>,
                     worklist: seq<Path>, part: Graph<Path>, w: seq<Path>)
    requires EdgeInv(fw, job, g, expanded) && Queued(expanded, worklist) <= TargetCallers(fw, job)
    requires part.edges <= g.edges && IsWalk(part, w)
    ensures UsableWalk(fw, job, w)
  {
    hide KnownEdge, SeedEdges, Shortcut, CanCallTarget;
    forall i: nat | i + 1 < |w| ensures UsableStep(fw, job, w, i) {
      assert Hop(part, w, i) && (w[i], w[i + 1]) in g.edges;
      if w[i + 1] in expanded {
        assert w[i + 1] in expanded + worklist;
      }
    }
  }

  /** When every queued node has been expanded, a chain of confirmed calls to the target is
      queued as a whole. */
  lemma {:induction false} ChainQueued(fw: Firmware, job: Job, queued: set<Path>, p: seq<Path>, k: nat)
    requires CallsToTarget(fw, job, p) && job.target in queued && k < |p|
    requires CallersQueued(fw, job, queued, queued)
    ensures p[|p| - 1 - k] in queued
  {
    hide Calls;
    if k > 0 {
      ChainQueued(fw, job, queued, p, k - 1);
      assert CallStep(fw, job, p, |p| - 1 - k);
    }
  }

  /** Completeness: an empty worklist without success excludes every staged chain. */
  lemma ExhaustedMeansNoChain(fw: Firmware, job: Job, g: Graph<Path>, expanded: seq<Path>, analyzed: set<Path>)
    requires SearchInv(fw, job, g, expanded, [], analyzed) && !Success(job, g)
    requires CallersQueued(fw, job, Elements(expanded), Queued(expanded, []))
    ensures forall s, p :: !StagedChain(fw, job, s, p)
  {
    hide Calls, SeedEdges, Shortcut, Reach, CanCallWithin, KnownEdge, Distinct;
    assert expanded + [] == expanded;
    forall s, p ensures !StagedChain(fw, job, s, p) {
      if StagedChain(fw, job, s, p) {
        ChainQueued(fw, job, Elements(expanded), p, |p| - 1);
        ReachMonotone(SeedGraph(job), g, job.entry.init, s);
        if s != p[0] {
          ReachEdge(g, s, p[0]);
          ReachTrans(g, s, p[0], job.target);
        }
        ReachTrans(g, job.entry.init, s, job.target);
      }
    }
  }

  /** Soundness: every graph that connects init to the target contains a staged chain, with no
      more calls in it than there were rounds. */
  lemma SuccessIsStaged(fw: Firmware, job: Job, g: Graph<Path>, expanded: seq<Path>,
                        worklist: seq<Path>, analyzed: set<Path>)
    requires SearchInv(fw, job, g, expanded, worklist, analyzed) && Success(job, g)
    ensures StagedWithin(fw, job, |expanded| + 1)
  {
    hide Calls, SeedEdges, Shortcut, Acyclic;
    var queued, seeds := Queued(expanded, worklist), SeedGraph(job);
    var w :| WalkBetween(g, w, job.entry.init, job.target);
    var j := FirstIn(w, queued);
    if j == 0 {
      var p :| CallsToTarget(fw, job, p) && p[0] == w[0] && |p| <= |expanded| + 1;
      ReachSelf(seeds, w[0]);
      assert StagedChain(fw, job, w[0], p);
    } else {
      SeedPrefix(fw, job, g, expanded, queued, w, j - 1);
      assert Hop(g, w, j - 1);
      StagedFrom(fw, job, w[j - 1], w[j], |expanded|);
    }
  }

  lemma FirstIn(w: seq<Path>, queued: set<Path>) returns (j: nat)
    requires w != [] && w[|w| - 1] in queued
    ensures j < |w| && w[j] in queued && forall i :: 0 <= i < j ==> w[i] !in queued
  {
    j := 0;
    while w[j] !in queued
      invariant j < |w| && forall i :: 0 <= i < j ==> w[i] !in queued
      decreases |w| - j
    {
      j := j + 1;
    }
  }

  /** Up to its first queued node a walk uses seed edges only. */
  lemma {:induction false} SeedPrefix(fw: Firmware, job: Job, g: Graph<Path>, expanded: seq<Path>,
                                      queued: set<Path>, w: seq<Path>, i: nat)
    requires EdgeInv(fw, job, g, expanded) && IsWalk(g, w) && i < |w|
    requires Elements(expanded) <= queued
    requires forall k :: 0 <= k <= i ==> w[k] !in queued
    ensures Reach(SeedGraph(job), w[0], w[i])
  {
    hide KnownEdge, SeedEdges, Shortcut, Acyclic, Reach;
    ReachSelf(SeedGraph(job), w[0]);
    if i > 0 {
      SeedPrefix(fw, job, g, expanded, queued, w, i - 1);
      assert Hop(g, w, i - 1) && (w[i - 1], w[i]) in g.edges;
      ReachEdge(SeedGraph(job), w[i - 1], w[i]);
      ReachTrans(SeedGraph(job), w[0], w[i - 1], w[i]);
    }
  }

  /** A known edge from where the seeds lead to a program that can call the target. */
  lemma StagedFrom(fw: Firmware, job: Job, u: Path, v: Path, n: nat)
    requires Reach(SeedGraph(job), job.entry.init, u) && KnownEdge(fw, job, u, v)
    requires CanCallWithin(fw, job, v, n + 1) && ((u, v) in SeedEdges(job) || CanCallWithin(fw, job, v, n))
    ensures StagedWithin(fw, job, n + 1)
  {
    hide Calls, SeedEdges, Shortcut, Reach;
    var p :| CallsToTarget(fw, job, p) && p[0] == v && |p| <= n + 1;
    if (u, v) in SeedEdges(job) {
      ReachEdge(SeedGraph(job), u, v);
      ReachTrans(SeedGraph(job), job.entry.init, u, v);
      assert StagedChain(fw, job, v, p);
    } else if Calls(fw, job, u, v) {
      CallerCanCall(fw, job, u, v, n);
      var q :| CallsToTarget(fw, job, q) && q[0] == u && |q| <= n + 1;
      assert StagedChain(fw, job, u, q);
    } else {
      assert StagedChain(fw, job, u, p);
    }
  }

  /** A chain of confirmed calls is a staged chain; without an init script and procd there are
      no others. */
  lemma ConfirmedIsStaged(fw: Firmware, job: Job)
    ensures (exists p :: ConfirmedChain(fw, job, p)) ==> exists s, p :: StagedChain(fw, job, s, p)
    ensures job.entry.bash.None? && job.entry.procd.None? && (exists s, p :: StagedChain(fw, job, s, p)) ==>
      exists p :: ConfirmedChain(fw, job, p)
  {
    hide Calls, LooksLikeInitScript;
    if p :| ConfirmedChain(fw, job, p) {
      ReachSelf(SeedGraph(job), job.entry.init);
      assert StagedChain(fw, job, job.entry.init, p);
    }
    if s, p :| StagedChain(fw, job, s, p) && job.entry.bash.None? && job.entry.procd.None? {
      var w :| WalkBetween(SeedGraph(job), w, job.entry.init, s);
      ClosedUnderWalk(SeedGraph(job), {job.entry.init}, w);
      assert ConfirmedChain(fw, job, p);
    }
  }

  // ----- the order of candidates -----

  predicate Sorted(q: seq<string>) {
    forall i, j :: 0 <= i < j < |q| ==> LexLe(q[i], q[j])
  }

  function InsertPath(q: seq<string>, x: string): (r: seq<string>)
    ensures |r| == |q| + 1 && forall y :: y in r <==> y == x || y in q
  {
    if q == [] || LexLe(x, q[0]) then [x] + q else [q[0]] + InsertPath(q[1..], x)
  }

  lemma {:induction false} InsertKeepsSorted(q: seq<string>, x: string)
    requires Sorted(q) && Distinct(q) && x !in q
    ensures Sorted(InsertPath(q, x)) && Distinct(InsertPath(q, x))
  {
    hide LexLe;
    if q != [] {
      var r := InsertPath(q, x);
      if LexLe(x, q[0]) {
        forall k | 0 <= k < |q| ensures LexLe(x, q[k]) {
          if k > 0 {
            LexTransitive(x, q[0], q[k]);
          }
        }
      } else {
        LexTotal(x, q[0]);
        InsertKeepsSorted(q[1..], x);
        forall y | y in InsertPath(q[1..], x) ensures LexLe(q[0], y) && y != q[0] {
        }
      }
    }
  }

  method SortPaths(paths: set<string>) returns (q: seq<string>)
    ensures Sorted(q) && Distinct(q) && forall x :: x in q <==> x in paths
  {
    hide LexLe;
    var rest := paths;
    q := [];
    while rest != {}
      invariant rest <= paths && Sorted(q) && Distinct(q)
      invariant forall x :: x in q <==> x in paths - rest
    {
      var x :| x in rest;
      InsertKeepsSorted(q, x);
      q, rest := InsertPath(q, x), rest - {x};
    }
  }

  // ----- the search -----

  class CallChainConstructor {
    const fw: Firmware
    var graph: Graph<Path>
    var worklist: seq<Path>
    var analyzed: set<Path>
    ghost var expanded: seq<Path>  // what has been taken from the worklist, in order
    ghost var before: seq<Graph<Path>>  // the graph before each of these

    ghost predicate Inv(job: Job)
      reads this
    {
      SearchInv(fw, job, graph, expanded, worklist, analyzed) && HistoryInv(job, graph, expanded, before)
    }

    ghost function QueuedNow(): set<Path>
      reads this
    {
      Queued(expanded, worklist)
    }

    /** The termination measure of the search. */
    function Remaining(): nat
      reads this
    {
      |fw.executables - analyzed| + |worklist|
    }

    constructor (fw: Firmware)
      ensures this.fw == fw && graph == Graph({}, {})
      ensures worklist == [] && analyzed == {} && expanded == [] && before == []
    {
      this.fw := fw;
      graph, worklist, analyzed, expanded, before := Graph({}, {}), [], {}, [], [];
    }

    method CallChainBuildSucc(job: Job) returns (ok: bool)
      requires Inv(job)
      ensures ok <==> Success(job, graph)
    {
      if job.entry.init !in graph.nodes {
        if Success(job, graph) {
          ReachInNodes(graph, job.entry.init, job.target);
        }
        return false;
      }
      ok := HasPath(graph, job.entry.init, job.target);
    }

    method GetCallChain(job: Job) returns (chain: seq<Path>)
      requires WellFormed(graph) && job.target in graph.nodes && Success(job, graph)
      ensures ShortestChain(job, graph, chain)
    {
      var s, t := job.entry.init, job.target;
      if s != t {
        ReachInNodes(graph, s, t);
      }
      var paths := AllSimplePaths(graph, s, t);
      if s == t {
        return [];
      }
      ghost var w :| WalkBetween(graph, w, s, t);
      ghost var q := SimplifyWalk(graph, w);
      assert q in paths;
      chain := paths[0];
      for i := 1 to |paths|
        invariant chain in paths
        invariant forall j :: 0 <= j < i ==> |chain| <= |paths[j]|
      {
        if |paths[i]| < |chain| {
          chain := paths[i];
        }
      }
      ShortestSimpleIsShortest(graph, chain, s, t);
    }

    /** The candidates in string order, but init first. */
    method OrderCallers(job: Job, callers: set<Path>) returns (order: seq<Path>)
      ensures Distinct(order) && forall x :: x in order <==> x in callers
      ensures if job.entry.init in callers then order != [] && order[0] == job.entry.init && Sorted(order[1..])
              else Sorted(order)
    {
      hide LexLe;
      order := SortPaths(callers);
      if job.entry.init in callers {
        var k := 0;
        while order[k] != job.entry.init
          invariant 0 <= k < |order| && forall i :: 0 <= i < k ==> order[i] != job.entry.init
          decreases |order| - k
        {
          k := k + 1;
        }
        order := [order[k]] + (order[..k] + order[k + 1..]);
      }
    }

    /** Records that `caller` calls `current`, and queues the caller when it is unknown. */
    method Record(job: Job, current: Path, caller: Path)
      requires Inv(job) && expanded != [] && current == expanded[|expanded| - 1] && job.target in analyzed
      requires Calls(fw, job, caller, current) && !Reach(graph, current, caller)
      modifies this
      ensures Inv(job) && expanded == old(expanded) && before == old(before) && old(worklist) <= worklist
      ensures old(analyzed) <= analyzed && caller in QueuedNow()
      ensures graph == AddEdge(old(graph), caller, current)
      ensures Remaining() == old(Remaining())
    {
      hide SearchInv, HistoryInv, Reach, Calls;
      AddCallerKeepsInv(fw, job, graph, expanded, worklist, analyzed, before, caller);
      graph := AddEdge(graph, caller, current);
      if caller !in analyzed {
        CallerInFirmware(fw, job, caller, current);
        assert fw.executables - analyzed == (fw.executables - (analyzed + {caller})) + {caller};
        worklist := worklist + [caller];
        analyzed := analyzed + {caller};
      }
      CallerQueued(fw, job, graph, expanded, worklist, analyzed, caller);
    }

    /** One candidate caller of the current binary. `found` means: return the chain now. */
    method ExamineCaller(job: Job, current: Path, caller: Path) returns (found: bool)
      requires Inv(job) && expanded != [] && current == expanded[|expanded| - 1]
      requires job.target in analyzed && !Success(job, graph)
      requires caller in PotentialCallers(fw, job, current)
      modifies this
      ensures Inv(job) && expanded == old(expanded) && before == old(before) && old(worklist) <= worklist
      ensures old(analyzed) <= analyzed && Remaining() == old(Remaining())
      ensures found <==> Success(job, graph)
      ensures old(graph).edges <= graph.edges
      ensures !found && Calls(fw, job, caller, current) ==> caller in QueuedNow() && Linked(graph, caller, current)
    {
      hide WellFormed, Distinct, PotentialCallers, Reach, NamesCurrent, CanCallWithin, KnownEdge, SeedEdges,
           ShortcutsAdded, HistoryInv;
      if ExcludedSelf(fw, job, caller) {
        return false;
      }
      var callees := fw.callees(caller);
      if callees == [] {
        return false;
      }
      for k := 0 to |callees|
        invariant Inv(job) && expanded == old(expanded) && before == old(before) && worklist == old(worklist)
        invariant analyzed == old(analyzed) && graph == old(graph)
        invariant (exists j :: 0 <= j < k && NamesCurrent(fw, current, callees[j])) ==>
          caller in QueuedNow() && Linked(graph, caller, current)
      {
        if NamesCurrent(fw, current, callees[k]) {
          if caller !in graph.nodes {
            if Reach(graph, current, caller) {
              ReachInNodes(graph, current, caller);
            }
            Record(job, current, caller);
            found := CallChainBuildSucc(job);
            if found {
              return;
            }
            break;
          } else {
            var reaches := HasPath(graph, current, caller);
            if !reaches {
              Record(job, current, caller);
              found := CallChainBuildSucc(job);
              if found {
                return;
              }
              break;
            } else {
              KnownCallerQueued(fw, job, graph, expanded, worklist, analyzed, current, caller);
            }
          }
        }
      }
      found := CallChainBuildSucc(job);
    }

    /** One round's candidates. */
    method ExamineCallers(job: Job, current: Path) returns (found: bool)
      requires Inv(job) && expanded != [] && current == expanded[|expanded| - 1]
      requires job.target in analyzed && !Success(job, graph)
      modifies this
      ensures Inv(job) && expanded == old(expanded) && before == old(before) && old(worklist) <= worklist
      ensures old(analyzed) <= analyzed && Remaining() == old(Remaining())
      ensures found <==> Success(job, graph)
      ensures old(graph).edges <= graph.edges
      ensures !found ==> forall x :: Calls(fw, job, x, current) ==> x in QueuedNow() && Linked(graph, x, current)
    {
      hide SearchInv, Linked, Calls, PotentialCallers;
      var order := OrderCallers(job, PotentialCallers(fw, job, current));
      found := false;
      for k := 0 to |order|
        invariant Inv(job) && expanded == old(expanded) && before == old(before) && old(worklist) <= worklist
        invariant old(analyzed) <= analyzed && Remaining() == old(Remaining())
        invariant !Success(job, graph)
        invariant old(graph).edges <= graph.edges
        invariant forall j :: 0 <= j < k && Calls(fw, job, order[j], current) ==>
          order[j] in QueuedNow() && Linked(graph, order[j], current)
      {
        ghost var queued, g := QueuedNow(), graph;
        found := ExamineCaller(job, current, order[k]);
        assert queued <= QueuedNow();
        forall j | 0 <= j < k && Calls(fw, job, order[j], current) ensures Linked(graph, order[j], current) {
          LinkStays(g, graph, order[j], current);
        }
        if found {
          return;
        }
      }
      forall x | Calls(fw, job, x, current) ensures x in QueuedNow() && Linked(graph, x, current) {
        CallerIsPotential(fw, job, x, current);
      }
    }

    /** One round: take the last worklist entry and look for its callers. */
    method Round(job: Job) returns (found: bool)
      requires Inv(job) && worklist != []
      requires job.target in analyzed || worklist == [job.target]
      requires CallersQueued(fw, job, Elements(expanded), QueuedNow()) && CallersLinked(fw, job, expanded, graph)
      modifies this
      ensures Inv(job) && job.target in analyzed && Remaining() < old(Remaining())
      ensures expanded == old(expanded) + [old(worklist)[|old(worklist)| - 1]] && before == old(before) + [old(graph)]
      ensures found <==> Success(job, graph)
      ensures CallersLinked(fw, job, old(expanded), graph)
      ensures !found ==> CallersQueued(fw, job, Elements(expanded), QueuedNow()) && CallersLinked(fw, job, expanded, graph)
    {
      hide SearchInv, HistoryInv, CallersQueued, CallersLinked, Linked, Queued, Reach, Calls, Shortcut, Elements;
      ghost var g := graph;
      var current := worklist[|worklist| - 1];
      ghost var done, queued := expanded, QueuedNow();
      ExpandKeepsInv(fw, job, graph, expanded, worklist, analyzed, before);
      SubsetSize(fw.executables - (analyzed + {current}), fw.executables - analyzed);
      before, expanded := before + [graph], expanded + [current];
      worklist, analyzed := worklist[..|worklist| - 1], analyzed + {current};
      var starter := Shortcut(job.entry, current);
      if starter.Some? {
        graph := AddEdge(graph, starter.value, current);
      }
      found := CallChainBuildSucc(job);
      if !found {
        ghost var list := worklist;
        found := ExamineCallers(job, current);
        QueuedGrows(expanded, list, worklist);
        StaysLinked(fw, job, done, g, graph);
        if !found {
          CallersQueuedMore(fw, job, done, current, queued, QueuedNow());
          CallersLinkedMore(fw, job, done, current, graph);
        }
      } else {
        StaysLinked(fw, job, done, g, graph);
      }
    }

    /** The search, for any round cap; a non-positive one never fires. */
    method Search(job: Job, cap: int) returns (r: Outcome)
      requires graph == Graph({}, {}) && worklist == [] && analyzed == {} && expanded == [] && before == []
      modifies this
      // every reachable state, the final one included, keeps the invariant
      ensures Inv(job)
      // no node is queued twice, and each one queued has a path to the target
      ensures Distinct(expanded + worklist)
      ensures forall x :: x in expanded + worklist ==> Reach(graph, x, job.target)
      // the graph is acyclic exactly when its seeds are and no shortcut, when it fired, started
      // at what its script reached; the input alone can exclude that
      ensures |before| == |expanded| && (expanded != [] ==> before[0].edges == SeedEdges(job))
      ensures forall i :: 0 <= i < |before| ==> before[i].edges == EdgesInto(job, graph, expanded[..i])
      ensures Acyclic(graph) <==> Acyclic(SeedGraph(job)) && NeverCloses(job, expanded, before)
      ensures Acyclic(SeedGraph(job)) && NoWayBack(fw, job) ==> Acyclic(graph)
      // the shortcuts of expanded nodes are in the graph
      ensures ShortcutsAdded(job, graph, expanded)
      // a chain is handed out exactly when the graph connects init to the target
      ensures r.Found? ==> Success(job, graph)
      ensures r.NotFound? || (r.Capped? && cap != 1) ==> !Success(job, graph)
      ensures r.Found? ==> ShortestChain(job, graph, r.chain)
      // soundness and completeness, with all seeds and shortcuts
      ensures r.Found? ==> StagedWithin(fw, job, |expanded| + 1)
      ensures r.NotFound? ==> forall s, p :: !StagedChain(fw, job, s, p)
      // when the worklist runs empty, what was expanded is what can call the target
      ensures r.NotFound? ==> worklist == [] && CallersQueued(fw, job, Elements(expanded), QueuedNow())
      ensures r.NotFound? ==> Elements(expanded) == TargetCallers(fw, job)
      ensures r.NotFound? ==> |expanded| == |TargetCallers(fw, job)|
      // no edge of a confirmed call to an expanded node is missing, unless it would close a
      // cycle; after success the last expansion may be unfinished
      ensures !r.Found? ==> CallersLinked(fw, job, expanded, graph)
      ensures r.Found? ==> expanded != [] && CallersLinked(fw, job, expanded[..|expanded| - 1], graph)
      // the cap is the only other way out, and fires only when as many programs can call the target
      ensures cap > 0 ==> |expanded| < cap
      ensures r.Capped? ==> 0 < cap <= |TargetCallers(fw, job)| && |expanded| == cap - 1 && worklist != []
    {
      hide SearchInv, HistoryInv, CallersQueued, CallersLinked, Queued, WellFormed, Distinct, Acyclic, Reach, SeedEdges, ShortestChain,
           StagedChain, ShortcutsAdded, NeverCloses, EdgesInto, NoWayBack, TargetCallers, StagedWithin, Elements,
           Success;
      SeedInvariant(fw, job);
      graph, worklist, expanded := SeedGraph(job), [job.target], [];
      var count := cap;
      while worklist != []
        invariant Inv(job) && |before| == |expanded| && job.target in expanded + worklist
        invariant expanded == [] ==> worklist == [job.target] && graph == SeedGraph(job)
        invariant expanded != [] ==> job.target in analyzed && !Success(job, graph) && before[0] == SeedGraph(job)
        invariant CallersQueued(fw, job, Elements(expanded), QueuedNow()) && CallersLinked(fw, job, expanded, graph)
        invariant count == cap - |expanded| && (cap > 0 ==> count > 0)
        decreases Remaining()
      {
        count := count - 1;
        if count == 0 {
          StateFacts(job);
          Ended(job);
          return Capped;
        }
        ghost var done := expanded;
        var found := Round(job);
        assert expanded[..|expanded| - 1] == done;
        StateFacts(job);
        if found {
          var chain := GetCallChain(job);
          SuccessIsStaged(fw, job, graph, expanded, worklist, analyzed);
          Ended(job);
          return Found(chain);
        }
      }
      r := NotFound;
      ExhaustedMeansNoChain(fw, job, graph, expanded, analyzed);
      StateFacts(job);
      Ended(job);
    }

    /** What every state of a search keeps. */
    lemma StateFacts(job: Job)
      requires Inv(job)
      ensures WellFormed(graph) && job.target in graph.nodes && job.target in expanded + worklist
      ensures Distinct(expanded + worklist)
      ensures forall x :: x in expanded + worklist ==> Reach(graph, x, job.target)
      ensures |before| == |expanded| && ShortcutsAdded(job, graph, expanded)
      ensures forall i :: 0 <= i < |before| ==> before[i].edges == EdgesInto(job, graph, expanded[..i])
      ensures Acyclic(graph) <==> Acyclic(SeedGraph(job)) && NeverCloses(job, expanded, before)
    {
      hide Distinct, Reach, KnownEdge, SeedEdges, CanCallWithin, ShortcutsAdded, EdgesInto, Acyclic, NeverCloses;
    }

    /** What it tells about the firmware. */
    lemma Ended(job: Job)
      requires Inv(job)
      ensures Acyclic(SeedGraph(job)) && NoWayBack(fw, job) ==> Acyclic(graph)
      ensures |expanded| + |worklist| <= |TargetCallers(fw, job)|
      ensures worklist == [] && CallersQueued(fw, job, Elements(expanded), QueuedNow()) ==>
        Elements(expanded) == TargetCallers(fw, job) && |expanded| == |TargetCallers(fw, job)|
    {
      hide SearchInv, HistoryInv, Acyclic, NoWayBack, CallersQueued;
      QueuedCanCall(fw, job, graph, expanded, worklist, analyzed);
      NoWayBackAcyclic(fw, job, graph, expanded, worklist, analyzed, before);
    }

    /** The search as it is configured. Unless the cap fires it finds a chain if and only if a
        staged chain exists; without an init script and procd, if and only if a chain of
        confirmed calls exists. With fewer than 20 programs that can call the target the cap
        does not fire. From 20 on it does when there is no staged chain, or only longer ones. */
    method Run(job: Job) returns (r: Outcome)
      requires graph == Graph({}, {}) && worklist == [] && analyzed == {} && expanded == [] && before == []
      modifies this
      ensures Inv(job)
      ensures r.Capped? ==> 20 <= |TargetCallers(fw, job)| <= |fw.executables| + 1 && !Success(job, graph)
      ensures (forall s, p :: !StagedChain(fw, job, s, p)) ==> (r.Capped? <==> |TargetCallers(fw, job)| >= 20)
      ensures (exists s, p :: StagedChain(fw, job, s, p)) && !StagedWithin(fw, job, 20) ==> r.Capped?
      ensures r.Found? ==> ShortestChain(job, graph, r.chain)
      ensures !r.Capped? ==> (r.Found? <==> exists s, p :: StagedChain(fw, job, s, p))
      ensures r.NotFound? ==> forall p :: !ConfirmedChain(fw, job, p)
      ensures job.entry.bash.None? && job.entry.procd.None? && !r.Capped? ==>
        (r.Found? <==> exists p :: ConfirmedChain(fw, job, p))
      ensures |before| == |expanded| && (expanded != [] ==> before[0].edges == SeedEdges(job))
      ensures forall i :: 0 <= i < |before| ==> before[i].edges == EdgesInto(job, graph, expanded[..i])
      ensures Acyclic(graph) <==> Acyclic(SeedGraph(job)) && NeverCloses(job, expanded, before)
      ensures Acyclic(SeedGraph(job)) && NoWayBack(fw, job) ==> Acyclic(graph)
      ensures ShortcutsAdded(job, graph, expanded)
      ensures r.NotFound? ==> worklist == [] && CallersQueued(fw, job, Elements(expanded), QueuedNow())
      ensures r.NotFound? ==> Elements(expanded) == TargetCallers(fw, job)
      ensures !r.Found? ==> CallersLinked(fw, job, expanded, graph)
      ensures r.Found? ==> expanded != [] && CallersLinked(fw, job, expanded[..|expanded| - 1], graph)
    {
      hide SearchInv, CallersLinked, ConfirmedChain, StagedChain, Acyclic, NeverCloses, ShortcutsAdded, CallersQueued, Queued,
           HistoryInv, EdgesInto, NoWayBack, TargetCallers;
      r := Search(job, ROUND_CAP);
      ConfirmedIsStaged(fw, job);
      TargetCallersBound(fw, job);
      if StagedWithin(fw, job, |expanded| + 1) {
        var s, p :| StagedChain(fw, job, s, p) && |p| <= |expanded| + 1;
        assert StagedWithin(fw, job, ROUND_CAP);
      }
    }
  }
}
