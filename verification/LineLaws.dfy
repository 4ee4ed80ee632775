/** What each kind of trace line does to the history that the process tables must match. */
module LineLaws {
  import opened Options
  import opened Digraph
  import opened ProcessTable

  /** A line changes no attribution and no kinship. */
  ghost predicate Unchanged(root: Root, t: Trace, e: Event) {
    && (forall q, fallback :: Binary(root, t + [e], q, fallback) == Binary(root, t, q, fallback))
    && (forall q :: ChildrenOf(t + [e], q) == ChildrenOf(t, q))
    && ParentsOf(t + [e]) == ParentsOf(t)
  }

  /** A successful execve names its target, for its own process only. */
  lemma ExecveNames(root: Root, t: Trace, p: int, x: string, q: int, fallback: bool)
    requires x != ""
    ensures Binary(root, t + [Execve(p, x, false)], q, fallback) == if q == p then Some(x) else Binary(root, t, q, fallback)
  {
    BinarySnoc(root, t, Execve(p, x, false), q, fallback);
  }

  /** An execve that fails, or whose target was not recognised, changes nothing. */
  lemma FailedExecve(root: Root, t: Trace, p: int, x: string, error: bool)
    requires error || x == ""
    ensures Unchanged(root, t, Execve(p, x, error))
  {
    NoChildNoExec(root, t, Execve(p, x, error));
  }

  /** So does a fork without a child: in the child itself, or when it fails. */
  lemma ForkWithoutChild(root: Root, t: Trace, p: int, retval: Option<int>)
    requires retval.None? || retval.value <= 0
    ensures Unchanged(root, t, Fork(p, retval))
  {
    NoChildNoExec(root, t, Fork(p, retval));
  }

  /** And any other line. */
  lemma OtherLine(root: Root, t: Trace, p: int, segv: bool)
    ensures Unchanged(root, t, Other(p, segv))
  {
    NoChildNoExec(root, t, Other(p, segv));
  }

  lemma NoChildNoExec(root: Root, t: Trace, e: Event)
    requires ChildOf(e).None? && !Execs(e, e.pid)
    ensures Unchanged(root, t, e)
  {
    forall q, fallback ensures Binary(root, t + [e], q, fallback) == Binary(root, t, q, fallback) {
      BinarySnoc(root, t, e, q, fallback);
    }
    forall q ensures ChildrenOf(t + [e], q) == ChildrenOf(t, q) {
      ListsSnoc(root, t, e, q);
    }
    assert (t + [e])[..|t|] == t;
  }

  /** A fork with a child, in the regular format with a positive return value or in another
      one with any number: the child inherits, is listed last, and has that parent. */
  lemma ForkRegisters(root: Root, t: Trace, e: Event, p: int, c: int)
    requires (e == Fork(p, Some(c)) && c > 0) || e == RawFork(p, c)
    ensures Binary(root, t + [e], c, false) == Binary(root, t, p, false)
    ensures Binary(root, t + [e], c, true) ==
      if Binary(root, t, p, true).Some? then Binary(root, t, p, true) else Binary(root, t, root.pid, true)
    ensures forall q, fallback :: q != c ==> Binary(root, t + [e], q, fallback) == Binary(root, t, q, fallback)
    ensures ParentsOf(t + [e]) == ParentsOf(t)[c := p]
    ensures forall q :: ChildrenOf(t + [e], q) == if q == p then ChildrenOf(t, q) + [c] else ChildrenOf(t, q)
  {
    forall q, fallback ensures q != c ==> Binary(root, t + [e], q, fallback) == Binary(root, t, q, fallback) {
      BinarySnoc(root, t, e, q, fallback);
    }
    BinarySnoc(root, t, e, c, false);
    BinarySnoc(root, t, e, c, true);
    forall q ensures ChildrenOf(t + [e], q) == if q == p then ChildrenOf(t, q) + [c] else ChildrenOf(t, q) {
      ListsSnoc(root, t, e, q);
    }
    assert (t + [e])[..|t|] == t;
  }

  /** A line is kept under its own process, but a fork in another format by a process without
      a known binary is kept under the root. */
  lemma LinesKept(root: Root, t: Trace, e: Event, q: int)
    ensures var owner := if e.RawFork? && Binary(root, t, e.pid, true).None? then root.pid else e.pid;
      LogOf(root, t + [e], q) == if q == owner then LogOf(root, t, q) + [e] else LogOf(root, t, q)
  {
    ListsSnoc(root, t, e, q);
  }

  /** Nothing was read: only the root has a binary, and nobody has kin. */
  lemma NothingRead(root: Root)
    ensures forall q, fallback ::
      Binary(root, [], q, fallback) == if q == root.pid then Some(root.binary) else None
    ensures ParentsOf([]) == map[] && forall q :: ChildrenOf([], q) == [] && LogOf(root, [], q) == []
  {
  }

  /** A shell is forked and started; then a search for a program fails; an unknown process
      crashes. */
  method FailedSearch() returns (tables: LogPreprocessing)
    ensures var sh, missing, crash := Execve(2, "/bin/sh", false), Execve(2, "/usr/sbin/missing", true), Other(7, true);
      && tables.processMap == map[1 := "/sbin/init", 2 := "/bin/sh"]
      && tables.processInfo == map[
        1 := Proc("/sbin/init", [Fork(1, Some(2))], false),
        2 := Proc("/bin/sh", [sh, missing], false),
        7 := Proc("unknown", [crash], true)]
      && tables.childToParent == map[2 := 1] && tables.parentMap == map[2 := 1]
      && tables.parentToChildren == map[1 := [2]]
  {
    hide InfoDescribes, MapDescribes, ParentsDescribe, ChildrenDescribe, Binary, LogOf, ChildrenOf, ParentsOf;
    var root := Root(1, "/sbin/init");
    tables := new LogPreprocessing(root);
    tables.ParseFiles(SearchTrace());
    SearchHistory(root);
    SearchTables(root, tables.processInfo, tables.processMap, tables.parentToChildren);
  }

  function SearchTrace(): Trace
  {
    [Fork(1, Some(2)), Execve(2, "/bin/sh", false), Execve(2, "/usr/sbin/missing", true), Other(7, true)]
  }

  function SearchLog(q: int): seq<Event> {
    if q == 1 then SearchTrace()[..1] else if q == 2 then SearchTrace()[1..3]
    else if q == 7 then SearchTrace()[3..] else []
  }

  lemma SearchHistory(root: Root)
    requires root == Root(1, "/sbin/init")
    ensures forall q, fallback :: (Binary(root, SearchTrace(), q, fallback) ==
      if q == 1 then Some("/sbin/init") else if q == 2 then Some("/bin/sh") else None)
    ensures ParentsOf(SearchTrace()) == map[2 := 1]
    ensures forall q :: ChildrenOf(SearchTrace(), q) == if q == 1 then [2] else []
    ensures forall q :: LogOf(root, SearchTrace(), q) == SearchLog(q)
  {
    hide Binary, LogOf, ChildrenOf, ParentsOf;
    var t := SearchTrace();
    NothingRead(root);
    ForkRegisters(root, [], t[0], 1, 2);
    assert [] + [t[0]] == t[..1] && t[..1] + [t[1]] == t[..2] && t[..2] + [t[2]] == t[..3] && t[..3] + [t[3]] == t;
    forall q, fallback ensures Binary(root, t[..2], q, fallback) == if q == 2 then Some("/bin/sh") else Binary(root, t[..1], q, fallback) {
      ExecveNames(root, t[..1], 2, "/bin/sh", q, fallback);
    }
    NoKin(root, t[..1], t[1]);
    FailedExecve(root, t[..2], 2, "/usr/sbin/missing", true);
    OtherLine(root, t[..3], 7, true);
    forall q ensures LogOf(root, t, q) == SearchLog(q) {
      LinesKept(root, [], t[0], q);
      LinesKept(root, t[..1], t[1], q);
      LinesKept(root, t[..2], t[2], q);
      LinesKept(root, t[..3], t[3], q);
    }
  }

  lemma SearchTables(root: Root, info: map<int, Proc>, m: map<int, string>,
                     children: map<int, seq<int>>)
    requires root == Root(1, "/sbin/init") && InfoDescribes(root, info, SearchTrace())
    requires MapDescribes(root, m, SearchTrace()) && ChildrenDescribe(children, SearchTrace())
    ensures m == map[1 := "/sbin/init", 2 := "/bin/sh"] && children == map[1 := [2]]
    ensures info == map[
      1 := Proc("/sbin/init", [Fork(1, Some(2))], false),
      2 := Proc("/bin/sh", [Execve(2, "/bin/sh", false), Execve(2, "/usr/sbin/missing", true)], false),
      7 := Proc("unknown", [Other(7, true)], true)]
  {
    hide InfoDescribes, Binary, LogOf, ChildrenOf;
    SearchHistory(root);
    SearchKeys(root, info);
    SearchProcs(root, info);
    var t := SearchTrace();
    forall p ensures p in m <==> p == 1 || p == 2 {
      assert p in m <==> Binary(root, t, p, true).Some?;
    }
    forall p ensures p in children <==> p == 1 {
      assert p in children <==> ChildrenOf(t, p) != [];
    }
  }

  lemma SearchKeys(root: Root, info: map<int, Proc>)
    requires root == Root(1, "/sbin/init") && InfoDescribes(root, info, SearchTrace())
    ensures forall p :: p in info <==> p == 1 || p == 2 || p == 7
  {
    hide Binary, LogOf;
    var t := SearchTrace();
    assert t[0] in t && t[1] in t && t[3] in t;
    forall p ensures p in info <==> p == 1 || p == 2 || p == 7 {
      assert p in info <==> Seen(root, t, p);
    }
  }

  lemma SearchProcs(root: Root, info: map<int, Proc>)
    requires root == Root(1, "/sbin/init") && InfoDescribes(root, info, SearchTrace())
    requires forall p :: p in info <==> p == 1 || p == 2 || p == 7
    ensures info[1] == Proc("/sbin/init", [Fork(1, Some(2))], false)
    ensures info[2] == Proc("/bin/sh", [Execve(2, "/bin/sh", false), Execve(2, "/usr/sbin/missing", true)], false)
    ensures info[7] == Proc("unknown", [Other(7, true)], true)
  {
    hide Binary, LogOf, Seen;
    SearchHistory(root);
    assert SearchTrace()[3] == Other(7, true);
  }

  lemma NoKin(root: Root, t: Trace, e: Event)
    requires e.Execve?
    ensures ParentsOf(t + [e]) == ParentsOf(t) && forall q :: ChildrenOf(t + [e], q) == ChildrenOf(t, q)
  {
    forall q ensures ChildrenOf(t + [e], q) == ChildrenOf(t, q) {
      ListsSnoc(root, t, e, q);
    }
    assert (t + [e])[..|t|] == t;
  }
}
