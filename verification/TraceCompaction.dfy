/** Compaction of runs of similar trace lines (Rehosting.merge_consecutive_duplicates). */
module TraceCompaction {
  import opened Strings

  const LONG_RUN: nat := 50

  predicate IsClose(line: string) {
    Contains(line, "close") && Contains(line, "=")
  }

  /** Lines that count as repetitions of each other: an equivalence relation. */
  predicate Alike(a: string, b: string) {
    a == b || (IsClose(a) && IsClose(b))
  }

  function Flatten(groups: seq<seq<string>>): seq<string> {
    if groups == [] then [] else groups[0] + Flatten(groups[1..])
  }

  predicate Uniform(group: seq<string>) {
    group != [] && forall k :: 0 <= k < |group| ==> Alike(group[0], group[k])
  }

  /** `groups` cuts `lines` into its maximal runs of alike lines. */
  predicate IsRuns(lines: seq<string>, groups: seq<seq<string>>) {
    && Flatten(groups) == lines
    && (forall i :: 0 <= i < |groups| ==> Uniform(groups[i]))
    && (forall i :: 0 < i < |groups| ==> !Alike(groups[i - 1][0], groups[i][0]))
  }

  function Copies(line: string, n: nat): (r: seq<string>)
    ensures |r| == n && forall k :: 0 <= k < n ==> r[k] == line
  {
    seq(n, _ => line)
  }

  /** A long run leaves one line, a short one as many as it had: copies of its first line. */
  function CompactRun(group: seq<string>): seq<string>
    requires group != []
  {
    Copies(group[0], if |group| >= LONG_RUN then 1 else |group|)
  }

  function CompactRuns(groups: seq<seq<string>>): (r: seq<seq<string>>)
    requires forall i :: 0 <= i < |groups| ==> groups[i] != []
    ensures |r| == |groups| && forall i :: 0 <= i < |r| ==> r[i] == CompactRun(groups[i])
  {
    seq(|groups|, i requires 0 <= i < |groups| => CompactRun(groups[i]))
  }

  lemma {:induction false} FlattenSnoc(groups: seq<seq<string>>, g: seq<string>)
    ensures Flatten(groups + [g]) == Flatten(groups) + g
  {
    if groups == [] {
      assert [g][1..] == [];
    } else {
      FlattenSnoc(groups[1..], g);
      assert (groups + [g])[1..] == groups[1..] + [g];
    }
  }

  ghost predicate Compacted(lines: seq<string>, merged: seq<string>) {
    exists groups :: IsRuns(lines, groups) && merged == Flatten(CompactRuns(groups))
  }

  lemma GrowRun(lines: seq<string>, done: seq<seq<string>>, run: seq<string>, line: string)
    requires run != [] && IsRuns(lines, done + [run]) && Alike(run[0], line)
    ensures IsRuns(lines + [line], done + [run + [line]])
  {
    hide IsClose;
    FlattenSnoc(done, run);
    FlattenSnoc(done, run + [line]);
    var old', now := done + [run], done + [run + [line]];
    forall i | 0 <= i < |now| ensures Uniform(now[i]) && now[i][0] == old'[i][0] {
      assert Uniform(old'[i]);
    }
  }

  lemma NewRun(lines: seq<string>, done: seq<seq<string>>, line: string)
    requires IsRuns(lines, done) && done != []
    requires done[|done| - 1] != [] && !Alike(done[|done| - 1][0], line)
    ensures IsRuns(lines + [line], done + [[line]])
  {
    hide IsClose, Flatten, Alike;
    FlattenSnoc(done, [line]);
    assert Uniform([line]) by { AlikeSelf(line); }
    var now := done + [[line]];
    forall i | 0 <= i < |now| ensures Uniform(now[i]) {
      if i < |done| {
        assert now[i] == done[i];
      }
    }
    forall i | 0 < i < |now| ensures !Alike(now[i - 1][0], now[i][0]) {
      if i < |done| {
        assert now[i] == done[i] && now[i - 1] == done[i - 1];
      }
    }
  }

  lemma AlikeSelf(line: string)
    ensures Alike(line, line)
  {
  }

  /** What the merging code appends for one finished run. */
  lemma CompactSnoc(done: seq<seq<string>>, run: seq<string>)
    requires run != [] && forall i :: 0 <= i < |done| ==> done[i] != []
    ensures forall i :: 0 <= i < |done + [run]| ==> (done + [run])[i] != []
    ensures Flatten(CompactRuns(done + [run])) == Flatten(CompactRuns(done)) + CompactRun(run)
  {
    FlattenSnoc(CompactRuns(done), CompactRun(run));
    assert CompactRuns(done + [run]) == CompactRuns(done) + [CompactRun(run)];
  }

  method MergeLines(lines: seq<string>) returns (merged: seq<string>)
    requires lines != []
    ensures Compacted(lines, merged)
  {
    hide IsClose, IsRuns, CompactRuns, Flatten;
    merged := [];
    var currLine, count := lines[0], 1;
    ghost var done: seq<seq<string>>, run := [], [currLine];
    FirstRun(lines);
    for k := 1 to |lines|
      invariant IsRuns(lines[..k], done + [run])
      invariant run != [] && currLine == run[0] && count == |run|
      invariant forall i :: 0 <= i < |done| ==> done[i] != []
      invariant merged == Flatten(CompactRuns(done))
    {
      var line := lines[k];
      assert lines[..k + 1] == lines[..k] + [line];
      if line == currLine {
        GrowRun(lines[..k], done, run, line);
        count, run := count + 1, run + [line];
      } else if IsClose(currLine) && IsClose(line) {
        GrowRun(lines[..k], done, run, line);
        count, run := count + 1, run + [line];
      } else {
        NewRun(lines[..k], done + [run], line);
        CompactSnoc(done, run);
        if count >= LONG_RUN {
          merged := merged + [currLine];
        } else {
          merged := merged + Copies(currLine, count);
        }
        done, run := done + [run], [line];
        currLine, count := line, 1;
      }
    }
    CompactSnoc(done, run);
    assert lines[..|lines|] == lines;
    if count >= LONG_RUN {
      merged := merged + [currLine];
    } else {
      merged := merged + Copies(currLine, count);
    }
    CompactedBy(lines, done + [run], merged);
  }

  lemma FirstRun(lines: seq<string>)
    requires lines != []
    ensures IsRuns(lines[..1], [] + [[lines[0]]]) && Flatten(CompactRuns([])) == []
  {
    FlattenSnoc([], [lines[0]]);
  }

  lemma CompactedBy(lines: seq<string>, groups: seq<seq<string>>, merged: seq<string>)
    requires IsRuns(lines, groups) && merged == Flatten(CompactRuns(groups))
    ensures Compacted(lines, merged)
  {
  }

  class TraceLog {
    var lines: map<string, seq<string>>

    constructor (lines: map<string, seq<string>>)
      ensures this.lines == lines
    {
      this.lines := lines;
    }

    /** Every non-empty list of the log is replaced by its compaction, in place. */
    method MergeConsecutiveDuplicates()
      modifies this
      ensures lines.Keys == old(lines).Keys
      ensures forall p :: p in lines ==>
        if old(lines)[p] == [] then lines[p] == [] else Compacted(old(lines)[p], lines[p])
    {
      hide Compacted;
      var todo := lines.Keys;
      while todo != {}
        invariant todo <= lines.Keys == old(lines).Keys
        invariant forall p :: p in todo ==> lines[p] == old(lines)[p]
        invariant forall p :: p in lines.Keys - todo ==>
          if old(lines)[p] == [] then lines[p] == [] else Compacted(old(lines)[p], lines[p])
      {
        var pid :| pid in todo;
        todo := todo - {pid};
        if lines[pid] == [] {
          continue;
        }
        var merged := MergeLines(lines[pid]);
        lines := lines[pid := merged];
      }
    }
  }

  // ----- what compaction does to the runs -----

  lemma {:induction false} RunsUnique(lines: seq<string>, gs: seq<seq<string>>, hs: seq<seq<string>>)
    requires IsRuns(lines, gs) && IsRuns(lines, hs)
    ensures gs == hs
    decreases |gs|
  {
    if gs != [] {
      TailRuns(lines, gs);
    }
    if hs != [] {
      TailRuns(lines, hs);
    }
    if gs != [] {
      FirstRunNotShorter(lines, gs, hs);
      FirstRunNotShorter(lines, hs, gs);
      assert gs[0] == lines[..|gs[0]|] == hs[0];
      RunsUnique(lines[|gs[0]|..], gs[1..], hs[1..]);
    }
  }

  lemma TailRuns(lines: seq<string>, gs: seq<seq<string>>)
    requires IsRuns(lines, gs) && gs != []
    ensures gs[0] != [] && |gs[0]| <= |lines| && lines[..|gs[0]|] == gs[0] && IsRuns(lines[|gs[0]|..], gs[1..])
  {
    hide IsClose;
    assert Uniform(gs[0]);
    assert lines[|gs[0]|..] == Flatten(gs[1..]);
  }

  lemma FirstRunNotShorter(lines: seq<string>, gs: seq<seq<string>>, hs: seq<seq<string>>)
    requires IsRuns(lines, gs) && IsRuns(lines, hs) && gs != [] && hs != []
    ensures |gs[0]| >= |hs[0]|
  {
    hide IsClose;
    TailRuns(lines, gs);
    TailRuns(lines, hs);
    var n := |gs[0]|;
    assert Uniform(gs[0]) && Uniform(hs[0]) && gs[0][0] == lines[0] == hs[0][0];
    assert forall k :: 0 <= k < |hs[0]| ==> hs[0][k] == lines[k];
    if |gs| > 1 {
      TailRuns(lines[n..], gs[1..]);
      assert lines[n] == gs[1][0];
    }
  }

  /** The compacted runs are the maximal runs of the output: same number, same first lines,
      none as long as 50. So the sequence of run classes is unchanged. */
  lemma CompactionRuns(groups: seq<seq<string>>)
    requires IsRuns(Flatten(groups), groups)
    ensures IsRuns(Flatten(CompactRuns(groups)), CompactRuns(groups))
    ensures forall i :: 0 <= i < |groups| ==>
      CompactRuns(groups)[i][0] == groups[i][0] &&
      |CompactRuns(groups)[i]| == if |groups[i]| >= 50 then 1 else |groups[i]|
    ensures CompactRuns(CompactRuns(groups)) == CompactRuns(groups)
  {
    hide IsClose;
  }

  /** A second pass changes nothing. */
  lemma MergeIdempotent(lines: seq<string>, once: seq<string>, twice: seq<string>)
    requires Compacted(lines, once) && Compacted(once, twice)
    ensures twice == once
  {
    hide Flatten, Alike;
    var groups :| IsRuns(lines, groups) && once == Flatten(CompactRuns(groups));
    var again :| IsRuns(once, again) && twice == Flatten(CompactRuns(again));
    CompactionRuns(groups);
    RunsUnique(once, again, CompactRuns(groups));
  }

  predicate SingleLine(group: seq<string>) {
    |group| < LONG_RUN && forall k :: 0 <= k < |group| ==> group[k] == group[0]
  }

  lemma RunKept(group: seq<string>)
    requires group != []
    ensures CompactRun(group) == group <==> SingleLine(group)
  {
    var r := CompactRun(group);
    if r == group {
      assert |group| == |r| < LONG_RUN;
      forall k | 0 <= k < |group| ensures group[k] == group[0] {
        assert r[k] == group[0];
      }
    }
  }

  /** A log survives unchanged exactly when every run is short and repeats one line. */
  lemma UnchangedIff(lines: seq<string>, groups: seq<seq<string>>, merged: seq<string>)
    requires IsRuns(lines, groups) && Compacted(lines, merged)
    ensures merged == lines <==> forall i :: 0 <= i < |groups| ==> SingleLine(groups[i])
  {
    hide Flatten, Alike, SingleLine;
    var gs :| IsRuns(lines, gs) && merged == Flatten(CompactRuns(gs));
    RunsUnique(lines, gs, groups);
    CompactionRuns(groups);
    forall i | 0 <= i < |groups| ensures CompactRuns(groups)[i] == groups[i] <==> SingleLine(groups[i]) {
      RunKept(groups[i]);
    }
    if merged == lines {
      RunsUnique(lines, groups, CompactRuns(groups));
    }
    if forall i :: 0 <= i < |groups| ==> SingleLine(groups[i]) {
      assert CompactRuns(groups) == groups;
    }
  }

  /** A short run that is not kept: of two different close lines the first is kept twice. */
  lemma CloseLinesMerge(merged: seq<string>)
    requires Compacted(["close(1) = 0", "close(2) = 0"], merged)
    ensures merged == ["close(1) = 0", "close(1) = 0"]
  {
    var a, b := "close(1) = 0", "close(2) = 0";
    assert "close" <= a[0..] && "=" <= a[9..] && "close" <= b[0..] && "=" <= b[9..];
    assert IsClose(a) && IsClose(b);
    PairIsRun(a, b);
    var groups :| IsRuns([a, b], groups) && merged == Flatten(CompactRuns(groups));
    RunsUnique([a, b], groups, [[a, b]]);
    assert CompactRun([a, b]) == [a, a];
    assert CompactRuns([[a, b]]) == [[a, a]];
    FlattenSnoc([], [a, a]);
    assert [] + [[a, a]] == [[a, a]];
  }

  lemma PairIsRun(a: string, b: string)
    requires Alike(a, b)
    ensures IsRuns([a, b], [[a, b]])
  {
    hide Alike;
    AlikeSelf(a);
    FlattenSnoc([], [a, b]);
    assert [] + [[a, b]] == [[a, b]];
    assert Uniform([a, b]);
  }

  /** Repeated lines: 49 are kept, 50 leave one. */
  lemma FiftyAreLong(line: string, n: nat, merged: seq<string>)
    requires n > 0 && Compacted(Copies(line, n), merged)
    ensures merged == if n >= 50 then [line] else Copies(line, n)
  {
    hide Flatten, Alike;
    var lines := Copies(line, n);
    var groups :| IsRuns(lines, groups) && merged == Flatten(CompactRuns(groups));
    OneRun(line, n);
    RunsUnique(lines, groups, [lines]);
    OneGroup(CompactRun(lines));
    assert CompactRuns([lines]) == [CompactRun(lines)];
  }

  lemma OneRun(line: string, n: nat)
    requires n > 0
    ensures IsRuns(Copies(line, n), [Copies(line, n)])
  {
    hide Alike;
    AlikeSelf(line);
    OneGroup(Copies(line, n));
    assert Uniform(Copies(line, n));
  }

  lemma OneGroup(g: seq<string>)
    ensures Flatten([g]) == g
  {
    FlattenSnoc([], g);
    assert [] + [g] == [g];
  }

  /** Two lines are alike only when they are the same, or both mention a close and a result. */
  lemma AlikeTable(a: string, b: string)
    requires a != b
    ensures Alike(a, b) <==>
      Contains(a, "close") && Contains(a, "=") && Contains(b, "close") && Contains(b, "=")
  {
    hide Contains;
  }

  /** Lines that are not alike are both kept. */
  lemma DifferentLinesStay(a: string, b: string, merged: seq<string>)
    requires a != b && !(Contains(a, "close") && Contains(a, "=")) && Compacted([a, b], merged)
    ensures merged == [a, b]
  {
    hide Flatten, Alike;
    AlikeTable(a, b);
    AlikeSelf(a);
    AlikeSelf(b);
    var groups :| IsRuns([a, b], groups) && merged == Flatten(CompactRuns(groups));
    OneGroup([a]);
    FlattenSnoc([[a]], [b]);
    assert [[a]] + [[b]] == [[a], [b]] && [a] + [b] == [a, b];
    assert IsRuns([a, b], [[a], [b]]);
    RunsUnique([a, b], groups, [[a], [b]]);
    assert CompactRun([a]) == [a] && CompactRun([b]) == [b];
    assert CompactRuns([[a], [b]]) == [[a], [b]];
  }
}
