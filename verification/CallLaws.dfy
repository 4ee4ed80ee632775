/** What the relations of the call-chain search mean in terms of the files themselves. */
module CallLaws {
  import opened Options
  import opened Digraph
  import opened Strings
  import opened CallChain
  import opened CallChainCases

  // ----- base names -----

  /** The part behind the last slash. */
  lemma {:induction false} BaseNameLaw(dir: string, name: string)
    requires '/' !in name
    ensures BaseName(dir + "/" + name) == name && BaseName(name) == name
    decreases |name|
  {
    var p := dir + "/" + name;
    if name != "" {
      var n := |name| - 1;
      assert p[..|p| - 1] == dir + "/" + name[..n];
      BaseNameLaw(dir, name[..n]);
      assert name == name[..n] + [name[n]];
    }
  }

  lemma {:induction false} BaseNameHasNoSlash(p: Path)
    ensures '/' !in BaseName(p)
  {
    if p != "" && p[|p| - 1] != '/' {
      BaseNameHasNoSlash(p[..|p| - 1]);
    }
  }

  lemma BaseNameTwice(p: Path)
    ensures BaseName(BaseName(p)) == BaseName(p)
  {
    BaseNameHasNoSlash(p);
    BaseNameLaw("", BaseName(p));
  }

  // ----- callers -----

  /** Some other executable whose strings mention the program; not the file the program is a
      link to. */
  predicate Mentioned(fw: Firmware, program: Path, f: Path) {
    && f in fw.executables && f != program && fw.mentions(f, program)
    && !(program in fw.symbol2file && fw.symbol2file[program] == f)
  }

  /** f lists the program as callee, by its base name or by a link to a file of that name. */
  predicate Lists(fw: Firmware, f: Path, program: Path) {
    exists callee :: callee in fw.callees(f) &&
      (BaseName(callee) == BaseName(program)
       || (callee in fw.symbol2file && BaseName(fw.symbol2file[callee]) == BaseName(program)))
  }

  /** A caller lists the program and mentions it; or, when nobody but the target does that, it
      mentions a link to it. */
  lemma CallsIff(fw: Firmware, job: Job, f: Path, program: Path)
    ensures Calls(fw, job, f, program) <==>
      && Lists(fw, f, program) && !(f == job.targetArgument && f in fw.elfFiles)
      && ((Mentioned(fw, program, f) && f != job.target)
          || ((forall g :: Mentioned(fw, program, g) ==> g == job.target)
              && program in fw.file2symbol
              && exists link :: link in fw.file2symbol[program] && Mentioned(fw, link, f)))
  {
    BaseNameTwice(program);
    hide BaseName;
    MentionedIs(fw, program);
    if program in fw.file2symbol {
      forall link | link in fw.file2symbol[program] ensures forall g :: g in StringCallers(fw, link) <==> Mentioned(fw, link, g) {
        MentionedIs(fw, link);
      }
    }
    var direct := StringCallers(fw, program) - {job.target};
    assert forall g :: g in direct <==> Mentioned(fw, program, g) && g != job.target;
    if direct != {} {
      var g :| g in direct;
      assert Mentioned(fw, program, g) && g != job.target;
    }
    assert Lists(fw, f, program) <==> exists callee | callee in fw.callees(f) :: NamesCurrent(fw, program, callee);
  }

  lemma MentionedIs(fw: Firmware, program: Path)
    ensures forall g :: g in StringCallers(fw, program) <==> Mentioned(fw, program, g)
  {
  }

  /** A program that is started through a link only: whoever mentions the link and lists it is
      a caller. */
  lemma LinkedCaller(fw: Firmware, job: Job, program: Path, link: Path, f: Path)
    requires forall g :: g in fw.executables ==> !fw.mentions(g, program)
    requires program in fw.file2symbol && link in fw.file2symbol[program]
    requires link in fw.symbol2file && fw.symbol2file[link] == program
    requires f in fw.executables && f != link && f != program && fw.mentions(f, link) && link in fw.callees(f)
    requires f != job.targetArgument || f !in fw.elfFiles
    ensures Calls(fw, job, f, program)
  {
    CallsIff(fw, job, f, program);
    assert Mentioned(fw, link, f) && Lists(fw, f, program);
  }

  /** When somebody else mentions the program itself, links are not consulted. */
  lemma DirectCallersOnly(fw: Firmware, job: Job, program: Path, g: Path, f: Path)
    requires g in fw.executables && g != program && g != job.target && fw.mentions(g, program)
    requires program !in fw.symbol2file || fw.symbol2file[program] != g
    ensures Calls(fw, job, f, program) ==> f in fw.executables && f != program && fw.mentions(f, program)
  {
    CallsIff(fw, job, f, program);
    assert Mentioned(fw, program, g);
  }

  // ----- seeds and shortcuts -----

  /** The edges that are known before the search. */
  lemma SeedTable(i: Path, b: Path, p: Path, t: Path, a: Path, busybox: bool, php: bool)
    ensures SeedEdges(Job(Entry(i, true, Some(b), None, false), t, a)) == {(i, b)}
    ensures SeedEdges(Job(Entry(i, false, None, Some(p), false), t, a)) == {(i, p)}
    ensures SeedEdges(Job(Entry(i, false, Some(b), Some(p), false), t, a)) == {(i, p), (p, b)}
    ensures SeedEdges(Job(Entry(i, false, Some(b), None, true), t, a)) == {(b, t)}
    ensures SeedEdges(Job(Entry(i, false, Some(b), None, false), t, a)) == {}
    ensures SeedEdges(Job(Entry(i, busybox, None, None, php), t, a)) == {}
  {
  }

  predicate InitScript(x: Path) {
    || Contains(x, "etc/init.d") || Contains(x, "etc/rc.d") || Contains(x, "etc/rcS")
    || Contains(x, "etc_ro/init.d") || Contains(x, "etc_ro/rc.d")
  }

  /** What starts an init script: the init script of the entry, or else procd. Only the last
      directory needs busybox or procd. */
  lemma ShortcutTable(i: Path, busybox: bool, b: Path, procd: Option<Path>, php: bool, x: Path)
    ensures InitScript(x) ==>
      && Shortcut(Entry(i, busybox, Some(b), procd, php), x) == Some(b)
      && Shortcut(Entry(i, busybox, None, procd, php), x) == procd
    ensures Contains(x, "etc_ro/rcS") ==>
      && Shortcut(Entry(i, true, Some(b), procd, php), x) == Some(b)
      && (procd.Some? ==> Shortcut(Entry(i, false, Some(b), procd, php), x) == Some(b))
    ensures !InitScript(x) ==>
      && Shortcut(Entry(i, false, Some(b), None, php), x) == None
      && (!Contains(x, "etc_ro/rcS") ==> Shortcut(Entry(i, busybox, Some(b), procd, php), x) == None)
  {
    hide Contains;
  }

  /** With a script that starts the target, and busybox or procd, the known edges alone make a
      chain: the search ends at once, whatever the files say. */
  method BootChainIsFound(fw: Firmware, job: Job) returns (r: Outcome)
    requires job.entry.bash.Some? && job.entry.httpPhp && (job.entry.initIsBusybox || job.entry.procd.Some?)
    ensures r.Found?
  {
    hide SearchInv, HistoryInv, Reach, StagedChain, Acyclic, ShortestChain, ConfirmedChain, CallersQueued, NoWayBack,
         TargetCallers, StagedWithin, NeverCloses, EdgesInto, Queued, SeedEdges;
    var c := new CallChainConstructor(fw);
    r := c.Run(job);
    BootChain(fw, job);
    SeedsInGraph(fw, job, c.graph, c.expanded, c.worklist, c.analyzed);
    ReachMonotone(SeedGraph(job), c.graph, job.entry.init, job.target);
  }

  lemma BootChain(fw: Firmware, job: Job)
    requires job.entry.bash.Some? && job.entry.httpPhp && (job.entry.initIsBusybox || job.entry.procd.Some?)
    ensures Reach(SeedGraph(job), job.entry.init, job.target)
    ensures StagedChain(fw, job, job.target, [job.target])
  {
    hide Reach, Calls;
    var g, e := SeedGraph(job), job.entry;
    if e.initIsBusybox {
      ReachEdge(g, e.init, e.bash.value);
    } else {
      ReachEdge(g, e.init, e.procd.value);
      ReachEdge(g, e.procd.value, e.bash.value);
      ReachTrans(g, e.init, e.procd.value, e.bash.value);
    }
    ReachEdge(g, e.bash.value, job.target);
    ReachTrans(g, e.init, e.bash.value, job.target);
  }

  lemma SeedsInGraph(fw: Firmware, job: Job, g: Graph<Path>, expanded: seq<Path>,
                     worklist: seq<Path>, analyzed: set<Path>)
    requires SearchInv(fw, job, g, expanded, worklist, analyzed)
    ensures SeedGraph(job).edges <= g.edges
  {
    hide SeedEdges;
  }

  // ----- runs -----

  const LINK: Path := "/bin/web"

  /** Init mentions and calls a link to the target. With `other`, a program that mentions the
      target itself, but calls nothing. */
  function LinkedFirmware(other: Option<Path>): Firmware {
    Firmware({INIT} + (if other.Some? then {other.value} else {}), {},
      (f: Path, t: Path) => (f == INIT && t == LINK) || (Some(f) == other && t == HTTPD),
      (f: Path) => if f == INIT then [LINK] else [],
      map[LINK := HTTPD], map[HTTPD := {LINK}])
  }

  const PLAIN_JOB: Job := Job(Entry(INIT, false, None, None, false), HTTPD, "httpd")

  /** The chain through the link is found. */
  method LinkIsFollowed() returns (r: Outcome)
    ensures r.Found?
  {
    hide SearchInv, HistoryInv, Reach, StagedChain, Acyclic, ShortestChain, CallersQueued, NoWayBack,
         TargetCallers, StagedWithin, NeverCloses, EdgesInto, Queued, Calls;
    var fw := LinkedFirmware(None);
    var c := new CallChainConstructor(fw);
    LinkedCaller(fw, PLAIN_JOB, HTTPD, LINK, INIT);
    var p := [INIT, HTTPD];
    assert CallStep(fw, PLAIN_JOB, p, 0);
    assert ConfirmedChain(fw, PLAIN_JOB, p);
    assert |fw.executables| + 1 < 20;
    r := c.Run(PLAIN_JOB);
  }

  /** But not once another program mentions the target itself. */
  method MentionHidesLink() returns (r: Outcome)
    ensures r.NotFound?
  {
    hide SearchInv, HistoryInv, Reach, StagedChain, Acyclic, ShortestChain, CallersQueued, NoWayBack,
         TargetCallers, StagedWithin, NeverCloses, EdgesInto, Queued, Calls, ConfirmedChain;
    var fw := LinkedFirmware(Some(STARTER));
    var c := new CallChainConstructor(fw);
    forall f ensures !Calls(fw, PLAIN_JOB, f, HTTPD) {
      DirectCallersOnly(fw, PLAIN_JOB, HTTPD, STARTER, f);
      CallsIff(fw, PLAIN_JOB, f, HTTPD);
    }
    NothingStaged(fw, PLAIN_JOB);
    assert |fw.executables| + 1 < 20;
    r := c.Run(PLAIN_JOB);
  }

  /** Nineteen programs in a row are within the cap. */
  method NineteenAreWithinCap() returns (r: Outcome)
    ensures r.Found?
  {
    hide SearchInv, HistoryInv, Reach, StagedChain, Acyclic, ShortestChain, CallersQueued, NoWayBack,
         TargetCallers, StagedWithin, NeverCloses, EdgesInto, Queued, Ladder, LadderJob, ConfirmedChain;
    var fw, job := Ladder(18), LadderJob(18);
    var c := new CallChainConstructor(fw);
    LadderChain(18);
    LadderSize(18);
    r := c.Run(job);
  }

  function Rungs(n: nat): set<Path> {
    set k | 0 <= k <= n :: Rung(k)
  }

  lemma LadderSize(n: nat)
    ensures |TargetCallers(Ladder(n), LadderJob(n))| <= n + 1
  {
    hide TargetCallers;
    RungsCount(n);
    assert Ladder(n).executables == Rungs(n) && LadderJob(n).target == Rung(0) && Rung(0) in Rungs(n);
    SubsetSize(TargetCallers(Ladder(n), LadderJob(n)), Rungs(n));
  }

  lemma {:induction false} RungsCount(n: nat)
    ensures |Rungs(n)| <= n + 1
  {
    if n == 0 {
      assert Rungs(0) == {Rung(0)};
    } else {
      RungsCount(n - 1);
      assert Rungs(n) == Rungs(n - 1) + {Rung(n)};
    }
  }
}
