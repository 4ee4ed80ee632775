# Verified models of FIRMWELL's algorithmic core

FIRMWELL rehosts embedded firmware. Most of it drives containers, emulators, analysers and
browsers. This project models the parts that are algorithms, and proves what they promise. All
answers from outside (which file mentions which program, what a page returned, what the key
server holds, what a trace line said) are arbitrary inputs or arbitrary steps.

| file | what it models |
|---|---|
| `Digraph.dfy` | finite digraphs: walks, reachability, cycles, and the three graph-library queries the program makes |
| `CallChain.dfy` | the backward worklist search from a target binary to the init program |
| `CallChainCases.dfy` | three runs of that search that show its limits |
| `CallLaws.dfy` | what its relations mean in terms of the files: callers, links, seeds, shortcuts |
| `WebArchive.dfy` | the resynchronising record scanner for the decompressed web archive, and a writer for its format |
| `ArchiveLaws.dfy` | its names and numbers in characters and bytes |
| `SplitArgs.dfy` | the quote- and bracket-aware argument splitter for trace lines |
| `SplitText.dfy` | argument texts of quotes and nested brackets, and that they survive joining and splitting |
| `ProcessTable.dfy` | the fork/exec bookkeeping that keeps five redundant tables |
| `LineLaws.dfy` | what each kind of trace line does to the history |
| `TraceCompaction.dfy` | the run compaction of trace logs |
| `DeepestLeaf.dfy` | the depth-first search for the deepest leaf of the process graph |
| `ShellCfg.dfy` | leaders, basic blocks and the stack machine that builds the control-flow graph |
| `ShellNesting.dfy` | the block lists of well-nested scripts, and whether their loops and cases are closed by their own ends |
| `ShellLaws.dfy` | leaders and stack machine by kind of command |
| `RedisLock.dfy` | the lock client, and the protocol of many clients over one leased key |
| `HttpCheck.dfy` | the HTTP probe of one URL, the probe of all URLs, and the two readers of its results |
| `HttpLaws.dfy` | the steps of the probe by kind of answer |
| `Bridges.dfy` | fresh bridge names, distinct subnets, and gateways found by a substring test |
| `Options.dfy`, `Strings.dfy` | shared definitions, and the order on strings |

Where the code changes state, the model is a class or a loop proved against a description that
does not mention the loop: a set of conditions on the result (an extraction, a split, a list of
runs, a partition), or the history of a trace. Each such description is then shown to determine
the result (`ExtractionUnique`, `SplitUnique`, `RunsUnique`), so the loop computes a function of
its input, and round trips and idempotence follow from the description alone.

Where the code and its own comments differ, the model follows the code:

- `merge_consecutive_duplicates` says that it keeps the last line of a long run and every line of
  a short one. It keeps copies of the first line; `UnchangedIff` says exactly when a log survives,
  and `CloseLinesMerge` shows one that does not.
- `build_cfg` says that DONE loops back. The edge it adds runs forward, from the loop head to
  DONE; only CONTINUE adds a backward edge.
- BREAK inside a loop always raises an error, because a node name is looked up in a list of
  blocks; `BuildCfg` says exactly when, and `BreakInLoopFails` shows an input.
- FI closes all ifs that are open directly inside each other, and a later ELSE then closes the
  loop or case around them (`ElseAfterNestedIf`). The first block is typed GENERAL whatever it
  holds, so a script that starts with a loop or case, with no line such as `#!/bin/sh` before
  it, loses that one (`LeadingLoopIsLost`). `CloseOwnIff` says exactly when all are closed.
- The init-script shortcut of the call-chain search is meant for busybox and procd systems, but
  only its last directory test is tied to them, as `and` binds tighter than `or`. Its edge is
  added untested: `ShortcutAcyclicIff` says exactly when a step keeps the graph acyclic, `Run`
  and `Search` carry that to whole runs, and `ShortcutMakesACycle` is a run where it fails.
  `NoWayBackAcyclic` gives a condition on the input alone. It is sufficient; where it fails, the
  course of the search decides, since a call that is examined after the shortcut is refused and
  one that is examined before closes the cycle.
- The cap of 20 rounds is a temporary guard in the code. `Run` says when it fires, exactly where
  there is no chain to be found, and `LongChainIsCapped` is a run that has a chain.
- The search looks for the callers of queued programs only, so it finds the chains in which all
  seed edges come first and all confirmed calls last, and no others; `Run` and `Search` prove
  both directions, and `SeedBehindCallIsMissed` is a run that misses a chain.
- The children and parent tables of processes are meant as a forest. `ListedExactlyOnceIff` and
  `AncestryAcyclicIff` say exactly when they are one.
- The two process tables are meant to say the same. `AgreesThroughoutIff` says exactly when.
- The archive that is opened is `cht.lzma`, although names and messages say `eng.lzma`.
- Brackets inside quotes count for the argument splitter (`QuotedBracketHidesCommas`).

The definitions that these descriptions use are pinned down in turn by laws that do not name
them: for each kind of event, answer, command or character what happens, and runs on small inputs
with their whole result.

Conventions: the order in which Python iterates over a set is left open (any order); the graph
library is version 2.8.4, pinned in `Dockerfile:38`, where a search for simple paths from a node to itself yields
nothing.

## Model

| member | source | states |
|---|---|---|
| CallChain.CallChainConstructor.Run | firmwell/backend/CallChainConstructor.py:165-342 | with the configured cap of 20: with fewer than 20 programs that can call the target the cap never fires; from 20 on it fires if there is no staged chain (seed edges from init, at most one shortcut edge, confirmed calls to the target), and also if each one has more than 20 programs in its calls; unless it fires, a shortest chain is handed out if and only if a staged chain exists, and without a known init script or procd if and only if a chain of confirmed calls exists |
| CallChain.CallChainConstructor.Search | firmwell/backend/CallChainConstructor.py:209-342 | the same for every cap, with seed edges and shortcuts allowed: soundness with a bound on the length, completeness when the worklist runs empty (exactly the programs that can call the target were expanded), no node queued twice, every queued node reaches the target, every expanded script has its shortcut edge, no edge of a confirmed call to an expanded node is missing unless it would close a cycle, termination without the cap; the graph is acyclic if and only if the seeds are and no script reached its starter in the graph just before its expansion, and always when the input has acyclic seeds and no usable way from a script to its starter |
| CallChain.CallChainConstructor.Round | firmwell/backend/CallChainConstructor.py:211-245 | one round expands the last worklist entry, strictly lowers unanalysed executables plus worklist length, records the graph as it was, and leaves no confirmed caller of an expanded node unqueued |
| CallChain.CallChainConstructor.ExamineCallers | firmwell/backend/CallChainConstructor.py:265-330 | after a round without success every confirmed caller of the current node is queued |
| CallChain.CallChainConstructor.ExamineCaller | firmwell/backend/CallChainConstructor.py:271-330 | success is reported exactly when the graph connects init to the target; otherwise a confirmed caller ends up queued, although the path test may refuse its edge |
| CallChain.CallChainConstructor.Record | firmwell/backend/CallChainConstructor.py:292-311 | the edge enters the graph, the caller is queued at most once, the measure and the invariant are kept |
| CallChain.CallChainConstructor.CallChainBuildSucc | firmwell/backend/CallChainConstructor.py:148-152 | true exactly when a walk leads from init to the target |
| CallChain.CallChainConstructor.GetCallChain | firmwell/backend/CallChainConstructor.py:65-72 | a simple path from init to the target such that no walk has fewer nodes; empty when both are the same node |
| CallChain.CallChainConstructor.OrderCallers | firmwell/backend/CallChainConstructor.py:265-269 | the same candidates without repetition, in string order, but init first when it is one |
| CallChain.KnownCallerQueued | firmwell/backend/CallChainConstructor.py:307-322 | why the path test loses nothing: a caller that the current node reaches was queued before, unless init reaches the target already |
| CallChain.AddCallerKeepsInv | firmwell/backend/CallChainConstructor.py:292-311 | both guarded insertions keep the search invariant, and the graph as acyclic as it was, also where the caller is new and no path test is made |
| CallChain.ExpandKeepsInv | firmwell/backend/CallChainConstructor.py:220-239 | taking the last worklist entry and adding its untested shortcut edge keeps the invariant, with the graph before it recorded |
| CallChain.ShortcutAcyclicIff | firmwell/backend/CallChainConstructor.py:226-239 | the untested edge leaves an acyclic graph if and only if the graph before it is acyclic and the script does not reach its starter in it |
| CallChain.NoWayBackAcyclic | firmwell/backend/CallChainConstructor.py:181-311 | a condition on the input: with acyclic seeds, and no way along seeds and known edges into programs that can call the target from an init script to its starter, the graph is acyclic in every state |
| CallChainCases.ShortcutMakesACycle | firmwell/backend/CallChainConstructor.py:226-239 | the failing input, as a run: a script that is its own starter is expanded, the shortcut fires without busybox or procd, and the search ends with a cyclic graph |
| CallChain.SeedsRooted | firmwell/backend/CallChainConstructor.py:181-207 | every seed edge starts where init reaches, or ends at the target |
| CallChain.SeedsAcyclic | firmwell/backend/CallChainConstructor.py:181-207 | the seed edges between different programs form no cycle |
| CallChain.ChainQueued | firmwell/backend/CallChainConstructor.py:271-330 | once all callers of queued nodes are queued, every node of a confirmed chain to the target is |
| CallChain.ExhaustedMeansNoChain | firmwell/backend/CallChainConstructor.py:211-342 | an empty worklist without success excludes every staged chain |
| CallChain.SuccessIsStaged | firmwell/backend/CallChainConstructor.py:241-242 | success always means that a staged chain exists |
| CallChain.ConfirmedIsStaged | firmwell/backend/CallChainConstructor.py:181-239 | a chain of confirmed calls is a staged one, and the only kind without an init script and procd |
| CallChainCases.SeedBehindCallIsMissed | firmwell/backend/CallChainConstructor.py:203-330 | the failing input, as a run: init calls a starter, a seed edge leads from it to the target, both edges are known to the search, and no chain is found |
| CallChain.QueuedCanCall | firmwell/backend/CallChainConstructor.py:209-217 | only programs that can call the target are queued, each once; an empty worklist has expanded exactly those |
| CallChainCases.LongChainIsCapped | firmwell/backend/CallChainConstructor.py:209-217 | the failing input, as a run: 21 programs in a row that call each other, from init to the target, and the cap fires |
| CallLaws.NineteenAreWithinCap | firmwell/backend/CallChainConstructor.py:209-217 | a run over 19 programs in a row, which finds the chain |
| CallLaws.CallsIff | firmwell/backend/CallChainConstructor.py:101-146 | who calls a program, from the files alone: an executable that lists it, or a link to a file of its name, among its callees, and mentions it; or, when no other program than the target mentions it, mentions a link to it |
| CallLaws.LinkedCaller | firmwell/backend/CallChainConstructor.py:251-263 | a program that is started through a link only has the callers that mention and list the link |
| CallLaws.DirectCallersOnly | firmwell/backend/CallChainConstructor.py:251-263 | when somebody else mentions the program itself, links are not consulted |
| CallLaws.LinkIsFollowed | firmwell/backend/CallChainConstructor.py:251-330 | a run that finds init behind a link to the target |
| CallLaws.MentionHidesLink | firmwell/backend/CallChainConstructor.py:251-330 | a run that misses it, because another program mentions the target without calling it |
| CallLaws.SeedTable | firmwell/backend/CallChainConstructor.py:181-207 | which edges each combination of busybox, procd, init script and PHP adds beforehand |
| CallLaws.BootChainIsFound | firmwell/backend/CallChainConstructor.py:181-242 | where these alone lead from init to the target every search ends with a chain, whatever the files say |
| CallLaws.ShortcutTable | firmwell/backend/CallChainConstructor.py:226-239 | which scripts have a shortcut, and that the init script comes before procd |
| CallLaws.BaseNameLaw | firmwell/backend/CallChainConstructor.py:287-290 | the base name is what stands behind the last slash |
| Digraph.HasPath | firmwell/backend/CallChainConstructor.py:148-152 | the path query answers true exactly for reachable nodes |
| Digraph.AllSimplePaths | firmwell/backend/CallChainConstructor.py:69-72 | the enumeration yields exactly the repetition-free walks between two different nodes |
| Digraph.ShortestSimpleIsShortest | firmwell/backend/CallChainConstructor.py:71-72 | a shortest simple path is no longer than any walk |
| Digraph.AcyclicAddEdge | firmwell/backend/CallChainConstructor.py:307-308 | an insertion keeps a graph acyclic if and only if its head did not already reach its tail |
| WebArchive.Extract | firmwell/backend/Planter.py:1699-1745 | on any bytes the scan ends, in bounds, and returns complete records, disjoint and in order, such that every complete record of the data starts inside a returned one; what is written is their names and payloads in that order |
| WebArchive.FindMarker | firmwell/backend/Planter.py:1706-1709 | the least marker from a position on, or none |
| WebArchive.ExtractionUnique | firmwell/backend/Planter.py:1703-1743 | those conditions leave only one possible result |
| WebArchive.RoundTrip | firmwell/backend/Planter.py:1703-1743 | scanning any list of written files, followed by anything, gives that list in order and then what the rest alone gives |
| WebArchive.ConsExtraction | firmwell/backend/Planter.py:1706-1743 | a written record in front is extracted first and changes nothing behind it |
| WebArchive.PrintedRecord | firmwell/backend/Planter.py:1711-1740 | a written file is a complete record at its own start, with that name and payload |
| WebArchive.Repack | firmwell/backend/Planter.py:1703-1743 | whatever is extracted from arbitrary bytes can be written and extracted again unchanged |
| WebArchive.RejectedMarker | firmwell/backend/Planter.py:1718-1734 | resuming one byte after a rejected marker passes over no record |
| WebArchive.TruncatedHeader | firmwell/backend/Planter.py:1723-1725 | stopping at a cut-off header loses no record |
| WebArchive.MarkerAtEnd | firmwell/backend/Planter.py:1708-1709 | stopping at a marker in the last bytes loses no record |
| WebArchive.AcceptedRecord | firmwell/backend/Planter.py:1736-1743 | jumping behind a record leaves only record starts inside it behind |
| WebArchive.ExtractedFileValid | firmwell/backend/Planter.py:1718-1740 | extracted names match the pattern and payloads are below 2^32 bytes |
| ArchiveLaws.NameOkIff | firmwell/backend/Planter.py:1702-1721 | a name is accepted if and only if it has allowed characters only and is a base, a dot and htm, html, css or js in any case |
| ArchiveLaws.MarkerTable | firmwell/backend/Planter.py:1707-1707 | a marker is three zero bytes |
| ArchiveLaws.PrintableTable | firmwell/backend/Planter.py:1714-1715 | which bytes belong to a name |
| ArchiveLaws.LengthTable | firmwell/backend/Planter.py:1726-1726 | the length is little-endian |
| ArchiveLaws.SampleArchive | firmwell/backend/Planter.py:1703-1743 | seventeen bytes with one file and a byte behind them, and what the scan writes |
| SplitArgs.Split | firmwell/backend/reason_fix/LogPreprocessing.py:127-157 | the arguments are the stripped pieces of a decomposition of the input at exactly its top-level commas; only an empty last piece is dropped |
| SplitArgs.SplitUnique | firmwell/backend/reason_fix/LogPreprocessing.py:141-152 | the input has only one such decomposition |
| SplitArgs.SplitUndoesJoin | firmwell/backend/reason_fix/LogPreprocessing.py:127-157 | splitting a comma-joined list of trimmed, closed arguments, padded with any white space, gives the list back |
| SplitArgs.PaddedPiece | firmwell/backend/reason_fix/LogPreprocessing.py:141-155 | white space around an argument changes neither the scan nor the kept text |
| SplitArgs.OpenLevelHidesCommas | firmwell/backend/reason_fix/LogPreprocessing.py:141-152 | whatever text follows, as long as the level does not return to zero, all of it belongs to one argument |
| SplitArgs.QuotedBracketHidesCommas | firmwell/backend/reason_fix/LogPreprocessing.py:146-151 | after a quoted opening bracket no comma splits any more, inside or outside quotes, until something closes the bracket |
| SplitText.SplitShown | firmwell/backend/reason_fix/LogPreprocessing.py:127-157 | joining any list of argument texts (plain characters, quoted strings, brackets nested at will) with commas and splitting gives the list back |
| SplitText.TextIsOnePiece | firmwell/backend/reason_fix/LogPreprocessing.py:141-152 | such a text is one piece, and behind it a comma splits again |
| SplitText.BracketedIsOnePiece | firmwell/backend/reason_fix/LogPreprocessing.py:146-151 | the same for plain text, commas included, in each of the three kinds of brackets |
| SplitText.QuotedIsOnePiece | firmwell/backend/reason_fix/LogPreprocessing.py:144-145 | the same for quoted text; an escaped quote does not end it |
| SplitText.BackslashHidesQuote | firmwell/backend/reason_fix/LogPreprocessing.py:144-145 | a backslash before the closing quote hides it, even when escaped itself: the next comma does not split |
| SplitText.LoneCloserHides | firmwell/backend/reason_fix/LogPreprocessing.py:141-151 | behind a closing bracket too many no comma splits any more |
| SplitText.ExecveLine | firmwell/backend/reason_fix/LogPreprocessing.py:127-157 | an execve line has three arguments: path, list, environment |
| SplitText.LastArgument | firmwell/backend/reason_fix/LogPreprocessing.py:154-157 | behind the last comma a blank argument counts, an empty one does not |
| SplitText.SpaceTable | firmwell/backend/reason_fix/LogPreprocessing.py:143-155 | which characters are stripped |
| ProcessTable.LogPreprocessing.ParseFiles | firmwell/backend/reason_fix/LogPreprocessing.py:308-555 | after any trace all five tables say exactly what the history says: binaries, logs, crash flags, parents and children lists; both parent tables are equal, and are the table that the results on ancestry speak of |
| ProcessTable.LogPreprocessing.HandleEvent | firmwell/backend/reason_fix/LogPreprocessing.py:475-555 | each event keeps that description |
| LineLaws.ExecveNames | firmwell/backend/reason_fix/LogPreprocessing.py:628-633 | a successful execve names its target, for its own process only |
| LineLaws.FailedExecve | firmwell/backend/reason_fix/LogPreprocessing.py:630-630 | a failed one, or one without a recognised target, changes nothing |
| LineLaws.ForkWithoutChild | firmwell/backend/reason_fix/LogPreprocessing.py:636-637 | nor does a fork without a positive return value |
| LineLaws.ForkRegisters | firmwell/backend/reason_fix/LogPreprocessing.py:635-652 | a fork with a child: the child inherits, is listed last and has that parent; in another format any number counts |
| LineLaws.LinesKept | firmwell/backend/reason_fix/LogPreprocessing.py:546-552 | under which process a line is kept |
| LineLaws.FailedSearch | firmwell/backend/reason_fix/LogPreprocessing.py:308-555 | a run over four lines with all five tables: a failed search for a program does not replace the shell |
| ProcessTable.LogPreprocessing.HandleChildProcess | firmwell/backend/reason_fix/LogPreprocessing.py:193-199 | the child inherits the parent's recorded binary, is appended to its list and points back to it |
| ProcessTable.InfoStep | firmwell/backend/reason_fix/LogPreprocessing.py:546-554 | process_info names the target of the latest successful execve since the last fork, or else the parent's binary at that fork |
| ProcessTable.MapStep | firmwell/backend/reason_fix/LogPreprocessing.py:641-652 | process_map does the same, with the root standing in for unknown parents |
| ProcessTable.BinarySnoc | firmwell/backend/reason_fix/LogPreprocessing.py:628-652 | how one more event changes the attribution by history |
| ProcessTable.AgreementStep | firmwell/backend/reason_fix/LogPreprocessing.py:530-542 | the two attributions stay equal exactly when the event is no fork by an unknown process under a known root binary |
| ProcessTable.AgreesThroughoutIff | firmwell/backend/reason_fix/LogPreprocessing.py:628-652 | process_info and process_map agree after every line of a trace if and only if no line is a fork by an unknown process under a known root binary |
| ProcessTable.KnownForksAgree | firmwell/backend/reason_fix/LogPreprocessing.py:628-652 | so they agree over every trace whose forking processes are known |
| ProcessTable.UnknownForkerDisagrees | firmwell/backend/reason_fix/LogPreprocessing.py:530-542 | the failing input: after a line of the initial process, a process nothing else has mentioned forks, and its child gets the root binary in one table only |
| ProcessTable.ChildListed | firmwell/backend/reason_fix/LogPreprocessing.py:198-199 | every child is in its recorded parent's list |
| ProcessTable.ListedExactlyOnceIff | firmwell/backend/reason_fix/LogPreprocessing.py:193-199 | every children list is free of repetition and holds only own children, if and only if no process number is forked twice in the trace |
| ProcessTable.ForkKeepsAcyclicIff | firmwell/backend/reason_fix/LogPreprocessing.py:199-199 | a fork keeps an acyclic parent table acyclic if and only if the child is neither the forker nor one of its recorded ancestors |
| ProcessTable.AncestryAcyclicIff | firmwell/backend/reason_fix/LogPreprocessing.py:199-199 | over a whole trace: the parent table is acyclic after every line if and only if no line forks the forker or one of its recorded ancestors |
| ProcessTable.AncestryEndsIff | firmwell/backend/reason_fix/LogPreprocessing.py:199-199 | following parents ends within as many steps as there are children, from everywhere, if and only if the table is acyclic |
| ProcessTable.ReuseMakesACycle | firmwell/backend/reason_fix/LogPreprocessing.py:199-199 | the failing input: two processes that fork each other |
| TraceCompaction.TraceLog.MergeConsecutiveDuplicates | firmwell/backend/Rehosting.py:641-681 | every non-empty list of the log is replaced by its compaction, all keys stay |
| TraceCompaction.MergeLines | firmwell/backend/Rehosting.py:653-678 | each maximal run of alike lines becomes copies of its first line: one copy from 50 on, else as many as before |
| TraceCompaction.RunsUnique | firmwell/backend/Rehosting.py:657-672 | a list has only one cut into maximal runs |
| TraceCompaction.CompactionRuns | firmwell/backend/Rehosting.py:665-678 | the output has the same runs in the same order with the same first lines, and none of 50 lines |
| TraceCompaction.MergeIdempotent | firmwell/backend/Rehosting.py:641-681 | a second pass changes nothing |
| TraceCompaction.UnchangedIff | firmwell/backend/Rehosting.py:643-646 | a log is kept verbatim if and only if every run is short and repeats one line |
| TraceCompaction.FiftyAreLong | firmwell/backend/Rehosting.py:665-678 | n copies of a line: one is left from 50 on, else n |
| TraceCompaction.AlikeTable | firmwell/backend/Rehosting.py:659-663 | different lines count as alike if and only if both contain "close" and "=" |
| TraceCompaction.DifferentLinesStay | firmwell/backend/Rehosting.py:657-678 | two lines that are not alike are both kept |
| TraceCompaction.CloseLinesMerge | firmwell/backend/Rehosting.py:643-678 | a log that is not kept: of two different close lines the first comes out twice |
| DeepestLeaf.DeepestLeafSearch.FindDeepestLeaf | firmwell/backend/Rehosting.py:2642-2663 | on a finite acyclic graph with a node it ends with exactly one leaf, reached by a root-to-leaf walk as long as any |
| DeepestLeaf.DeepestLeafSearch.Dfs | firmwell/backend/Rehosting.py:2649-2658 | the record is met by an explored walk and beaten by none below the current node |
| DeepestLeaf.RootExists | firmwell/backend/Rehosting.py:2644-2644 | an acyclic graph with a node has a root to start from |
| DeepestLeaf.EndsTable | firmwell/backend/Rehosting.py:2644-2652 | a root is the target of no edge, a leaf the source of none |
| DeepestLeaf.SmallGraph | firmwell/backend/Rehosting.py:2642-2663 | a run over four processes |
| ShellCfg.IdentifyLeaders | firmwell/backend/call_chain_utils/shell_cfg.py:26-50 | the leaders are exactly the first command, openers, closers and successors of control transfers |
| ShellCfg.ConstructBasicBlocks | firmwell/backend/call_chain_utils/shell_cfg.py:52-66 | the blocks concatenate to the commands, none is empty, they start exactly at 0 and the leaders, and all but the first carry their first command's type |
| ShellCfg.BlockCount | firmwell/backend/call_chain_utils/shell_cfg.py:52-66 | there are as many blocks as leaders |
| ShellCfg.ControlBlocksAreSingletons | firmwell/backend/call_chain_utils/shell_cfg.py:26-66 | with the computed leaders a control transfer is the last command of its block |
| ShellCfg.BuildCfg | firmwell/backend/call_chain_utils/shell_cfg.py:68-156 | it fails exactly when a BREAK stands inside an open loop; otherwise the edges are exactly those the stack prescribes |
| ShellCfg.BreakInLoopFails | firmwell/backend/call_chain_utils/shell_cfg.py:119-124 | the failing input: a loop with a BREAK in it |
| ShellCfg.CloseBranches | firmwell/backend/call_chain_utils/shell_cfg.py:100-103 | FI closes every open branch on top of the stack |
| ShellCfg.StackEntries | firmwell/backend/call_chain_utils/shell_cfg.py:83-154 | stack entries name earlier blocks of the matching type, outermost first |
| ShellCfg.EdgeDirection | firmwell/backend/call_chain_utils/shell_cfg.py:83-154 | every edge joins existing blocks and goes strictly forward, except from CONTINUE, whose edge goes back to the head of a loop still open |
| ShellCfg.CyclesNeedContinue | firmwell/backend/call_chain_utils/shell_cfg.py:126-131 | every cycle passes through a CONTINUE block |
| ShellCfg.WithoutContinueAcyclic | firmwell/backend/call_chain_utils/shell_cfg.py:112-117 | without CONTINUE the graph is acyclic, so DONE makes no loop |
| ShellNesting.CloseOwnIff | firmwell/backend/call_chain_utils/shell_cfg.py:52-141 | in the block list of a well-nested script every DONE and ESAC draws its edge from its own opener if and only if the script does not start with a loop or case and, inside loops and cases, no else follows a branch in which an if stands directly |
| ShellNesting.ElseAfterNestedIf | firmwell/backend/call_chain_utils/shell_cfg.py:26-117 | a failing input, as a run over its commands: x, for, if, if, fi, else, fi, done, where DONE does not close the loop |
| ShellNesting.LeadingLoopIsLost | firmwell/backend/call_chain_utils/shell_cfg.py:26-117 | a failing input, as a run over its commands: for, x, done, where the first block is typed GENERAL, opens no loop and gets no edge to DONE |
| ShellLaws.LeaderTable | firmwell/backend/call_chain_utils/shell_cfg.py:26-50 | behind which commands, and at which, a block starts |
| ShellLaws.OpenerTable | firmwell/backend/call_chain_utils/shell_cfg.py:87-134 | edges and stack at what opens a construct, at BREAK and at a general command |
| ShellLaws.CloserTable | firmwell/backend/call_chain_utils/shell_cfg.py:92-117 | edges and stack at ELSE, DONE and ESAC |
| ShellLaws.FiTable | firmwell/backend/call_chain_utils/shell_cfg.py:100-105 | FI draws an edge from each open branch on top and takes them all |
| ShellLaws.ContinueTable | firmwell/backend/call_chain_utils/shell_cfg.py:126-131 | CONTINUE leads to the innermost open loop, whatever is open inside it |
| ShellLaws.IfElseGraph | firmwell/backend/call_chain_utils/shell_cfg.py:68-156 | a run over an if with else, and its six edges |
| RedisLock.Lock.Acquire | firmwell/backend/RedisLock.py:14-24 | True means a full lease of 360 seconds on a key that was free, within the timeout, and a free key is taken at once; False means the timeout passed; in between the client tries twice a second; a disabled lock touches nothing |
| RedisLock.Lock.Release | firmwell/backend/RedisLock.py:26-37 | the key goes only if it holds this client's value |
| RedisLock.ServerTable | firmwell/backend/RedisLock.py:21-37 | the server commands: a free or expired key is taken for 360 seconds, a live one stays, only its own value deletes it |
| RedisLock.TimeTable | firmwell/backend/RedisLock.py:14-24 | polling and lease last 360 seconds each |
| RedisLock.EnabledTable | firmwell/backend/RedisLock.py:14-37 | who may act when: a release comes from anybody who is not polling, a holder late or not |
| RedisLock.ActionTable | firmwell/backend/RedisLock.py:14-37 | what each action does to the server and to the phases |
| RedisLock.StepKeepsInvIff | firmwell/backend/RedisLock.py:14-37 | each protocol step keeps "one client in its lease, the key its own" if and only if it is no release under another in-lease client's value |
| RedisLock.LeasedMutualExclusion | firmwell/backend/RedisLock.py:14-37 | in every run of safe releases at most one client is inside an unexpired lease |
| RedisLock.LeasedThroughoutIff | firmwell/backend/RedisLock.py:14-37 | a possible run keeps that after each of its steps if and only if all its releases are safe |
| RedisLock.SafeReleaseSparesOthers | firmwell/backend/RedisLock.py:26-37 | a late release never takes the key from another client in its lease |
| RedisLock.DistinctNamesAreSafe | firmwell/backend/RedisLock.py:11-11 | with different lock values every release is safe |
| RedisLock.TwoHoldersAfterExpiry | firmwell/backend/RedisLock.py:21-21 | after 360 seconds two clients can believe that they hold the lock |
| RedisLock.OneHolderStepIff | firmwell/backend/RedisLock.py:14-37 | without the lease bound, a step keeps "at most one client believes that it holds the lock" if and only if it is no poll that succeeds while another client still believes so |
| RedisLock.EqualNamesBreakExclusion | firmwell/backend/RedisLock.py:11-37 | with equal values a late release puts two clients inside their leases |
| HttpCheck.URLCheck.Probe | firmwell/plugins/http_check.py:183-289 | the outcome is a function of the answers; whatever they are, a well-formed verdict comes with both flags and status 200, after a request and a login that worked in two turns running and two good looks at the page |
| HttpCheck.URLCheck.Turn | firmwell/plugins/http_check.py:196-285 | one turn of the probe loop: when it ends, what it needs for a well-formed verdict, which flags survive, and the whole new state |
| HttpCheck.RecognisedPage | firmwell/plugins/http_check.py:196-285 | a page that answers 200 or 401 and looks good is found well formed: in the second turn when it needs no login, in the third when it lets a pair of credentials in twice |
| HttpLaws.OtherStatusEnds | firmwell/plugins/http_check.py:206-212 | any other status ends the probe |
| HttpLaws.RetestTable | firmwell/plugins/http_check.py:215-260 | the first answer and the first login are only tested again; a refused login ends the probe |
| HttpLaws.LookTable | firmwell/plugins/http_check.py:264-285 | the second look decides; a 401 at another URL starts the tests again there |
| HttpCheck.URLCheck.Curlcheck | firmwell/plugins/http_check.py:51-101 | at most four requests, which answer is returned, and the status kept: that of the reply, but 408 when a timeout came first |
| HttpLaws.ResetIsRetried | firmwell/plugins/http_check.py:65-91 | after a reset by the peer the next request goes over https |
| HttpLaws.SecondChance | firmwell/plugins/http_check.py:86-88 | on port 443 a failed first request is repeated, a failed second one is not |
| HttpLaws.OneRequest | firmwell/plugins/http_check.py:71-94 | without these the first request is the last, and which status each failure leaves |
| HttpLaws.FourResets | firmwell/plugins/http_check.py:61-63 | there is no fifth request |
| HttpCheck.URLCheck.Logincheck | firmwell/plugins/http_check.py:103-153 | a login succeeds if and only if one of the fifteen pairs of credentials works twice, and the first such pair is stored, unless one is stored already |
| HttpLaws.CredentialTable | firmwell/plugins/http_check.py:116-149 | the fifteen pairs in their order; a stored pair stays |
| HttpLaws.LoginTable | firmwell/plugins/http_check.py:103-153 | without a pair that works twice the login fails; an unknown login counts as none |
| HttpCheck.URLCheck.Webcheck | firmwell/plugins/http_check.py:157-176 | well formed only after two good looks; a retry address only on status 401 |
| HttpCheck.HTTPInteractionCheck.Probe | firmwell/plugins/http_check.py:298-312 | the kept entries and the result as a function of all answers: the probe ends at the first address and port whose page is well formed, or behind the last; True exactly when a page was well formed or, without full timeout, anything answered; each position in the two lists has answers of its own |
| HttpCheck.FirstAllGoodDecides | firmwell/plugins/http_check.py:298-308 | if everything before some address and port is passed over and that one is answered well, login included, the probe succeeds |
| HttpCheck.HTTPInteractionCheck.Check | firmwell/plugins/http_check.py:341-362 | success exactly when an entry passes, and then the first one in port and URL order decides; else whether an entry with a status other than 200 connected |
| HttpCheck.RefusedLoginLooksUnconnected | firmwell/plugins/http_check.py:341-362 | so a page that answers 200 and refuses every login is reported as (False, False, False) under the strict check, though its request succeeded |
| HttpCheck.HTTPInteractionCheck.GetWorkingIpSet | firmwell/plugins/http_check.py:320-339 | nothing exactly when no entry is usable; else the first with a recognised login, or the first usable one |
| HttpCheck.HTTPInteractionCheck.Sort | firmwell/plugins/http_check.py:345-346 | the stable sort by port and then URL: a permutation, in order, and entries with equal keys stay in their order |
| HttpLaws.EntryTable | firmwell/plugins/http_check.py:320-362 | which entries pass, are usable and have a recognised login, strictly and not |
| HttpCheck.ProbeAndCheck | firmwell/backend/Rehosting.py:572-580 | the rehosting loop reports success exactly when a page was well formed, and the address handed out is then that of a well-formed page |
| HttpLaws.BasicAuthentication | firmwell/backend/Rehosting.py:572-580 | a run: a router that answers 401 throughout and lets one of the fifteen pairs in is reported as a success |
| Bridges.QemuUserRunner.SetupBridges | firmwell/backend/DockerManager.py:119-188 | for any configuration: names distinct and fresh, gateways right; no two bridges serve addresses that agree in the first three octets, none serves a listed network a.b.c.0; each valid address has a bridge or a listed network, or the creation for it was tried and failed; one plain bridge for each interface without addresses; and all tables are a function of the configuration and of what docker refuses |
| Bridges.TwoInterfaces | firmwell/backend/DockerManager.py:119-203 | a run: loopback skipped, one name taken, two addresses of one network, one of a listed network, an interface without addresses, and the resulting bridges |
| Bridges.SameSubnetIff | firmwell/backend/DockerManager.py:161-163 | two addresses share a subnet address if and only if their first three octets agree |
| Bridges.SubnetIsNetwork | firmwell/backend/DockerManager.py:160-163 | the subnet address is the address with last octet 0 |
| Bridges.TextInjective | firmwell/backend/DockerManager.py:160-163 | different addresses have different texts |
| Bridges.QemuUserRunner.AddAddress | firmwell/backend/DockerManager.py:160-186 | one address keeps these properties, also when creation fails |
| Bridges.QemuUserRunner.AddPlain | firmwell/backend/DockerManager.py:147-157 | an interface without addresses gets one plain bridge |
| Bridges.QemuUserRunner.GenerateUniqueBridgeName | firmwell/backend/DockerManager.py:190-203 | the suffix search ends with the base name or the least free suffix |
| Bridges.GetGateway | firmwell/backend/DockerManager.py:57-71 | the first address whose text is in no reserved text, 254 at last |
| Bridges.GatewayInAddress | firmwell/backend/DockerManager.py:64-65 | the substring test on addresses of one network compares first digits of the last octet |
| Bridges.GatewayAvoidsContainer | firmwell/backend/DockerManager.py:57-71 | the gateway is .1, or .2 if and only if the container's last octet starts with a 1, and never the container's address |
| Bridges.SuffixedInjective | firmwell/backend/DockerManager.py:198-203 | different suffixes give different names |
| Bridges.AddBridge | firmwell/backend/DockerManager.py:174-183 | a bridge with a free name and a free subnet keeps all names and subnets distinct |

## Left out

- Docker, QEMU, Ghidra, Selenium, HTTP and the key server's transport: their answers are inputs or nondeterministic steps.
- The callee cache of the call-chain search, whose first answer for one program differs from later ones: confirmed callees are a fixed function of the file.
- A missing init script where the code adds an edge from it anyway: the graph library raises an error there; the model adds no edge.
- The rewriting of the selected chain to absolute paths, and the printed diagnostics.
- CallChain.Firmware: the callees of one caller come in any fixed order, as the set they are kept in has none.
- ProcessTable: file, network and IPC sets, exit codes, error counts, the regular expressions that recognise lines, the choice of the initial process and the limit of 100 log files; events come in recognised, in file order.
- SplitArgs.Split: white space outside ASCII.
- WebArchive.Extract: decompression, and files of one name overwriting each other; the list of writes is modelled.
- TraceCompaction.TraceLog.MergeConsecutiveDuplicates: the order in which the lists of the log are visited.
- DeepestLeaf.DeepestLeafSearch.FindDeepestLeaf: which of several deepest leaves is returned, as the order of children is open.
- ShellCfg.BuildCfg: how often an edge is added, because only which edges exist matters for the properties; the classification of commands is an input.
- RedisLock: disabled locks in the protocol; they exclude nobody.
- HttpCheck.HTTPInteractionCheck.GetWorkingIpSet: hands out an entry; its IP, credentials, headers and payload are not part of entries.
- HttpCheck: entries are kept as snapshots, which nothing changes after the probe. A probe that never ends is one whose answers run out.
- Bridges: overlap of a new /24 subnet with an existing network of another size, which the code does not look at; the IPv6 variant; removal of old networks.
- Process killing, brand-specific branches, login request building, script writers and result summaries.
