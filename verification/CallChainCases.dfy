/** Three runs of the backward search that show its limits. */
module CallChainCases {
  import opened Options
  import opened Digraph
  import opened Strings
  import opened CallChain

  const INIT: Path := "/sbin/init"
  const HTTPD: Path := "/usr/sbin/httpd"
  const SCRIPT: Path := "/etc/init.d/rcS"
  const STARTER: Path := "/bin/start"

  /** One executable, `caller`, that mentions and calls `callee`. */
  function OneCaller(caller: Path, callee: Path): Firmware {
    Firmware({caller}, {}, (f: Path, t: Path) => f == caller && t == callee,
      (f: Path) => if f == caller then [callee] else [], map[], map[])
  }

  lemma OneCall(caller: Path, callee: Path, job: Job, u: Path, v: Path)
    requires caller != callee && caller != job.target && job.targetArgument != caller
    ensures Calls(OneCaller(caller, callee), job, u, v) <==> u == caller && v == callee
  {
    var fw := OneCaller(caller, callee);
    if v == callee {
      assert caller in StringCallers(fw, v);
      assert fw.callees(caller) == [callee] && callee in fw.callees(caller);
    }
  }

  lemma ChainEnds(fw: Firmware, job: Job, p: seq<Path>)
    requires CallsToTarget(fw, job, p) && |p| > 1
    ensures Calls(fw, job, p[0], p[1]) && Calls(fw, job, p[|p| - 2], job.target)
  {
    assert CallStep(fw, job, p, 0) && CallStep(fw, job, p, |p| - 2);
  }

  /** Where no seed or shortcut starts at init, and init calls nothing or nothing calls the
      target, no staged chain leads from one to the other. */
  lemma NothingStaged(fw: Firmware, job: Job)
    requires job.target != job.entry.init
    requires (forall v :: !Calls(fw, job, job.entry.init, v)) || (forall u :: !Calls(fw, job, u, job.target))
    requires forall e :: e in SeedEdges(job) ==> e.0 != job.entry.init
    requires job.entry.bash != Some(job.entry.init) && job.entry.procd != Some(job.entry.init)
    ensures forall s, p :: !StagedChain(fw, job, s, p)
  {
    hide Calls, SeedEdges, LooksLikeInitScript;
    forall s, p ensures !StagedChain(fw, job, s, p) {
      if StagedChain(fw, job, s, p) {
        var w :| WalkBetween(SeedGraph(job), w, job.entry.init, s);
        ClosedUnderWalk(SeedGraph(job), {job.entry.init}, w);
        ChainEnds(fw, job, p);
        assert false;
      }
    }
  }

  /** An init script that starts the target and is its own starter: the search expands it,
      takes the shortcut without busybox or procd, and ends with a cyclic graph. */
  method ShortcutMakesACycle() returns (c: CallChainConstructor, r: Outcome)
    ensures r.NotFound? && SCRIPT in c.expanded && !Acyclic(c.graph)
  {
    hide HistoryInv, SearchInv, Distinct, Reach, StagedChain, Calls, ShortestChain, ConfirmedChain, Acyclic,
         NoWayBack, TargetCallers, NeverCloses, EdgesInto, StagedWithin;
    var job := Job(Entry(INIT, false, Some(SCRIPT), None, false), HTTPD, "httpd");
    var fw := OneCaller(SCRIPT, HTTPD);
    c := new CallChainConstructor(fw);
    r := c.Run(job);
    forall u, v ensures Calls(fw, job, u, v) <==> u == SCRIPT && v == HTTPD {
      OneCall(SCRIPT, HTTPD, job, u, v);
    }
    NothingStaged(fw, job);
    CallsTheTarget(fw, job, SCRIPT);
    assert SCRIPT in c.expanded;
    assert "etc/init.d" <= SCRIPT[1..];
    assert (SCRIPT, SCRIPT) in c.graph.edges;
    ReachSelf(c.graph, SCRIPT);
    AcyclicByEdges(c.graph);
  }

  /** The input that the search misses: init calls the starter, and a seed edge leads from the
      starter to the target. Every edge of that chain is known to the search, but only the
      callers of the target are looked for. */
  method SeedBehindCallIsMissed() returns (r: Outcome)
    ensures var fw := OneCaller(INIT, STARTER);
      var job := Job(Entry(INIT, false, Some(STARTER), None, true), HTTPD, "httpd");
      r.NotFound? && KnownEdge(fw, job, INIT, STARTER) && KnownEdge(fw, job, STARTER, HTTPD)
  {
    hide SearchInv, HistoryInv, Reach, StagedChain, Calls, Acyclic, ShortestChain, ConfirmedChain, CallersQueued,
         NoWayBack, TargetCallers, StagedWithin, NeverCloses, EdgesInto, Queued;
    var fw := OneCaller(INIT, STARTER);
    var job := Job(Entry(INIT, false, Some(STARTER), None, true), HTTPD, "httpd");
    var c := new CallChainConstructor(fw);
    r := c.Run(job);
    forall u, v ensures Calls(fw, job, u, v) <==> u == INIT && v == STARTER {
      OneCall(INIT, STARTER, job, u, v);
    }
    NothingStaged(fw, job);
  }

  // ----- the cap -----

  function Rung(k: nat): (r: Path)
    ensures |r| == k + 1
  {
    if k == 0 then "r" else "r" + Rung(k - 1)
  }

  /** Programs in a row, each calling the one below. */
  function Ladder(n: nat): Firmware {
    Firmware(set k | 0 <= k <= n :: Rung(k), {}, (f: Path, t: Path) => |f| == |t| + 1,
      (f: Path) => if f == "" then [] else [f[1..]], map[], map[])
  }

  function LadderJob(n: nat): Job {
    Job(Entry(Rung(n), false, None, None, false), Rung(0), "")
  }

  lemma RungCalls(n: nat, k: nat)
    requires k < n
    ensures Calls(Ladder(n), LadderJob(n), Rung(k + 1), Rung(k))
  {
    var fw, f, v := Ladder(n), Rung(k + 1), Rung(k);
    assert f[1..] == v && fw.callees(f) == [v];
    assert v in fw.callees(f) && NamesCurrent(fw, v, v);
    assert f in StringCallers(fw, v) && f != Rung(0);
  }

  lemma LadderChain(n: nat)
    ensures ConfirmedChain(Ladder(n), LadderJob(n), seq(n + 1, i requires 0 <= i <= n => Rung(n - i)))
  {
    hide Calls;
    var p := seq(n + 1, i requires 0 <= i <= n => Rung(n - i));
    forall i: nat | i + 1 < |p| ensures CallStep(Ladder(n), LadderJob(n), p, i) {
      RungCalls(n, n - i - 1);
    }
  }

  lemma {:induction false} ChainDescends(n: nat, p: seq<Path>, k: nat)
    requires CallsToTarget(Ladder(n), LadderJob(n), p) && k < |p|
    ensures |p[0]| == |p[k]| + k
  {
    if k > 0 {
      ChainDescends(n, p, k - 1);
      assert CallStep(Ladder(n), LadderJob(n), p, k - 1);
      CallerIsPotential(Ladder(n), LadderJob(n), p[k - 1], p[k]);
    }
  }

  lemma LadderIsLong(n: nat)
    ensures !StagedWithin(Ladder(n), LadderJob(n), n)
  {
    hide Calls, LooksLikeInitScript, Ladder;
    var fw, job := Ladder(n), LadderJob(n);
    if s, p :| StagedChain(fw, job, s, p) && |p| <= n {
      var w :| WalkBetween(SeedGraph(job), w, job.entry.init, s);
      ClosedUnderWalk(SeedGraph(job), {job.entry.init}, w);
      ChainDescends(n, p, |p| - 1);
      assert false;
    }
  }

  /** A chain of 21 programs: init is connected to the target, but the cap fires. */
  method LongChainIsCapped() returns (r: Outcome)
    ensures r.Capped? && exists p :: ConfirmedChain(Ladder(20), LadderJob(20), p)
  {
    hide SearchInv, HistoryInv, Reach, StagedChain, Acyclic, ShortestChain, ConfirmedChain, CallersQueued,
         NoWayBack, TargetCallers, StagedWithin, NeverCloses, EdgesInto, Queued, Ladder, LadderJob;
    var fw, job := Ladder(20), LadderJob(20);
    var c := new CallChainConstructor(fw);
    LadderChain(20);
    LadderIsLong(20);
    ConfirmedIsStaged(fw, job);
    r := c.Run(job);
  }
}
