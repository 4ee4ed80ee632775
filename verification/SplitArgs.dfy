/** The quote- and bracket-aware splitter for system-call argument lists (LogPreprocessing). */
module SplitArgs {

  predicate IsSpace(c: char) {
    9 <= c as int <= 13 || 28 <= c as int <= 32
  }

  predicate AllSpace(s: string) {
    forall k :: 0 <= k < |s| ==> IsSpace(s[k])
  }

  function StripLeft(s: string): string {
    if s != "" && IsSpace(s[0]) then StripLeft(s[1..]) else s
  }

  function StripRight(s: string): string {
    if s != "" && IsSpace(s[|s| - 1]) then StripRight(s[..|s| - 1]) else s
  }

  function Strip(s: string): string {
    StripRight(StripLeft(s))
  }

  /** Where the scanner stands inside the current argument. */
  datatype Scan = Scan(inQuotes: bool, level: int)

  const OUTSIDE := Scan(false, 0)

  /** The effect of one character that does not end the argument read so far. */
  function Advance(read: string, st: Scan, c: char): Scan {
    if c == '"' && (read == "" || read[|read| - 1] != '\\') then st.(inQuotes := !st.inQuotes)
    else if c == '{' || c == '[' || c == '(' then st.(level := st.level + 1)
    else if c == '}' || c == ']' || c == ')' then st.(level := st.level - 1)
    else st
  }

  /** The state after reading all of s as one argument. */
  function After(s: string): Scan {
    if s == "" then OUTSIDE
    else Advance(s[..|s| - 1], After(s[..|s| - 1]), s[|s| - 1])
  }

  /** No comma of s is one the scanner would split at. */
  predicate NoTopComma(s: string) {
    forall i :: 0 <= i < |s| && s[i] == ',' ==> After(s[..i]) != OUTSIDE
  }

  function Join(pieces: seq<string>): string {
    if pieces == [] then "" else if |pieces| == 1 then pieces[0]
    else pieces[0] + "," + Join(pieces[1..])
  }

  /** Pieces that make up s again, whose separating commas are exactly its top-level commas. */
  predicate IsSplit(s: string, pieces: seq<string>) {
    && pieces != [] && Join(pieces) == s
    && (forall i :: 0 <= i < |pieces| ==> NoTopComma(pieces[i]))
    && (forall i :: 0 <= i < |pieces| - 1 ==> After(pieces[i]) == OUTSIDE)
  }

  function StripAll(pieces: seq<string>): (args: seq<string>)
    ensures |args| == |pieces|
  {
    seq(|pieces|, i requires 0 <= i < |pieces| => Strip(pieces[i]))
  }

  /** The arguments are the stripped pieces; an empty last piece is not an argument. */
  function ArgsOf(pieces: seq<string>): seq<string>
    requires pieces != []
  {
    if pieces[|pieces| - 1] == "" then StripAll(pieces[..|pieces| - 1]) else StripAll(pieces)
  }

  lemma {:induction false} JoinSnoc(pieces: seq<string>, last: string)
    requires pieces != []
    ensures Join(pieces + [last]) == Join(pieces) + "," + last
  {
    if |pieces| == 1 {
      assert (pieces + [last])[1..] == [last];
    } else {
      JoinSnoc(pieces[1..], last);
      assert (pieces + [last])[1..] == pieces[1..] + [last];
    }
  }

  method Split(s: string) returns (args: seq<string>)
    ensures exists pieces :: IsSplit(s, pieces) && args == ArgsOf(pieces)
  {
    args := [];
    var current, inQuotes, level := "", false, 0;
    ghost var done: seq<string> := [];
    for i := 0 to |s|
      invariant Scan(inQuotes, level) == After(current) && NoTopComma(current)
      invariant Join(done + [current]) == s[..i]
      invariant forall k :: 0 <= k < |done| ==> NoTopComma(done[k]) && After(done[k]) == OUTSIDE
      invariant args == StripAll(done)
    {
      var c := s[i];
      assert s[..i + 1] == s[..i] + [c];
      if c == ',' && !inQuotes && level == 0 {
        JoinSnoc(done + [current], "");
        args, done, current := args + [Strip(current)], done + [current], "";
      } else {
        JoinGrow(done, current, c);
        NoTopCommaGrow(current, c);
        if c == '"' && (current == "" || current[|current| - 1] != '\\') {
          inQuotes := !inQuotes;
        } else if c == '{' || c == '[' || c == '(' {
          level := level + 1;
        } else if c == '}' || c == ']' || c == ')' {
          level := level - 1;
        }
        current := current + [c];
        assert current[..|current| - 1] + [c] == current;
      }
    }
    assert s[..|s|] == s;
    ghost var pieces := done + [current];
    assert IsSplit(s, pieces);
    assert pieces[..|pieces| - 1] == done;
    if current != "" {
      args := args + [Strip(current)];
    }
    assert args == ArgsOf(pieces);
  }

  lemma JoinGrow(done: seq<string>, current: string, c: char)
    ensures Join(done + [current + [c]]) == Join(done + [current]) + [c]
  {
    if done != [] {
      JoinSnoc(done, current);
      JoinSnoc(done, current + [c]);
    }
  }

  lemma NoTopCommaGrow(s: string, c: char)
    requires NoTopComma(s) && (c == ',' ==> After(s) != OUTSIDE)
    ensures NoTopComma(s + [c])
  {
    var t := s + [c];
    forall i | 0 <= i < |t| && t[i] == ',' ensures After(t[..i]) != OUTSIDE {
      assert t[..i] == s[..i];
      if i == |s| { assert t[..i] == s; }
    }
  }

  /** A string has only one such decomposition, so Split computes a function of it. */
  lemma {:induction false} SplitUnique(s: string, ps: seq<string>, qs: seq<string>)
    requires IsSplit(s, ps) && IsSplit(s, qs)
    ensures ps == qs
    decreases |ps|
  {
    FirstPieceNotShorter(s, ps, qs);
    FirstPieceNotShorter(s, qs, ps);
    assert ps[0] == s[..|ps[0]|] == qs[0];
    if |ps| > 1 {
      var rest := s[|ps[0]| + 1..];
      assert IsSplit(rest, ps[1..]);
      assert |qs| > 1;
      assert IsSplit(rest, qs[1..]);
      SplitUnique(rest, ps[1..], qs[1..]);
      assert ps == [ps[0]] + ps[1..] && qs == [qs[0]] + qs[1..];
    }
  }

  lemma FirstPieceNotShorter(s: string, ps: seq<string>, qs: seq<string>)
    requires IsSplit(s, ps) && IsSplit(s, qs)
    ensures |ps[0]| >= |qs[0]|
    ensures |ps[0]| <= |s| && s[..|ps[0]|] == ps[0]
    ensures |ps| > 1 ==> |s| > |ps[0]| && s[|ps[0]| + 1..] == Join(ps[1..])
  {
    var n := |ps[0]|;
    var m := if n < |qs[0]| then n else |qs[0]|;
    assert qs[0][..m] == s[..m] == ps[0][..m];
    assert m == n ==> ps[0][..m] == ps[0];
    assert NoTopComma(qs[0]) && forall k :: 0 <= k < |qs[0]| ==> qs[0][k] == s[k];
    assert |ps| > 1 ==> s[n] == ',';
  }

  // ----- splitting undoes joining -----

  /** An argument as a caller would write it: not empty, trimmed, no comma to split at. */
  predicate Proper(arg: string) {
    arg != "" && !IsSpace(arg[0]) && !IsSpace(arg[|arg| - 1]) && NoTopComma(arg)
  }

  /** `piece` is `arg` with white space around it. */
  ghost predicate Padded(piece: string, arg: string) {
    exists pre, post :: AllSpace(pre) && AllSpace(post) && piece == pre + arg + post
  }

  lemma {:induction false} AfterLeftPad(pre: string, a: string)
    requires AllSpace(pre)
    ensures After(pre + a) == After(a)
    decreases |pre| + |a|
  {
    if a != "" {
      var n := |a| - 1;
      assert (pre + a)[..|pre| + n] == pre + a[..n];
      AfterLeftPad(pre, a[..n]);
    } else if pre != "" {
      var n := |pre| - 1;
      assert pre + a == pre && pre[..n] + "" == pre[..n];
      AfterLeftPad(pre[..n], "");
    }
  }

  lemma {:induction false} AfterRightPad(a: string, post: string)
    requires AllSpace(post)
    ensures After(a + post) == After(a)
    decreases |post|
  {
    if post == "" {
      assert a + post == a;
    } else {
      var n := |post| - 1;
      assert (a + post)[..|a| + n] == a + post[..n];
      AfterRightPad(a, post[..n]);
    }
  }

  lemma {:induction false} StripLeftPad(pre: string, a: string)
    requires AllSpace(pre) && a != "" && !IsSpace(a[0])
    ensures StripLeft(pre + a) == a
    decreases |pre|
  {
    if pre == "" {
      assert pre + a == a;
    } else {
      assert (pre + a)[1..] == pre[1..] + a;
      StripLeftPad(pre[1..], a);
    }
  }

  lemma {:induction false} StripRightPad(a: string, post: string)
    requires AllSpace(post) && a != "" && !IsSpace(a[|a| - 1])
    ensures StripRight(a + post) == a
    decreases |post|
  {
    if post == "" {
      assert a + post == a;
    } else {
      var n := |post| - 1;
      assert (a + post)[..|a| + n] == a + post[..n];
      StripRightPad(a, post[..n]);
    }
  }

  lemma PaddedNoTopComma(pre: string, arg: string, post: string)
    requires NoTopComma(arg) && AllSpace(pre) && AllSpace(post)
    ensures NoTopComma(pre + arg + post)
  {
    var piece := pre + arg + post;
    forall i | 0 <= i < |piece| && piece[i] == ',' ensures After(piece[..i]) != OUTSIDE {
      var k := i - |pre|;
      assert 0 <= k < |arg| && arg[k] == ',';
      assert piece[..i] == pre + arg[..k];
      AfterLeftPad(pre, arg[..k]);
    }
  }

  /** Padding changes neither the scan of an argument nor what is kept of it. */
  lemma PaddedPiece(piece: string, arg: string)
    requires Proper(arg) && Padded(piece, arg)
    ensures NoTopComma(piece) && After(piece) == After(arg) && Strip(piece) == arg && piece != ""
  {
    hide NoTopComma, After, StripLeft, StripRight;
    var pre, post :| AllSpace(pre) && AllSpace(post) && piece == pre + arg + post;
    PaddedNoTopComma(pre, arg, post);
    AfterRightPad(pre + arg, post);
    AfterLeftPad(pre, arg);
    assert pre + arg + post == pre + (arg + post);
    StripLeftPad(pre, arg + post);
    StripRightPad(arg, post);
  }

  /** Splitting a comma-joined list of proper arguments, padded at will, gives the list back. */
  lemma SplitUndoesJoin(pieces: seq<string>, args: seq<string>, out: seq<string>)
    requires |pieces| == |args|
    requires forall i :: 0 <= i < |args| ==> Proper(args[i]) && Padded(pieces[i], args[i])
    requires forall i :: 0 <= i < |args| - 1 ==> After(args[i]) == OUTSIDE
    requires exists ps :: IsSplit(Join(pieces), ps) && out == ArgsOf(ps)
    ensures out == args
  {
    hide NoTopComma, Padded, Proper, Strip, After;
    var ps :| IsSplit(Join(pieces), ps) && out == ArgsOf(ps);
    if args == [] {
      assert IsSplit("", [""]);
      SplitUnique("", ps, [""]);
    } else {
      forall i | 0 <= i < |args|
        ensures NoTopComma(pieces[i]) && After(pieces[i]) == After(args[i])
        ensures Strip(pieces[i]) == args[i] && pieces[i] != ""
      {
        PaddedPiece(pieces[i], args[i]);
      }
      SplitUnique(Join(pieces), ps, pieces);
    }
  }

  // ----- brackets inside quotes -----

  /** While the level stays off zero no comma is split at, quoted or not: whatever follows q
      belongs to one argument. */
  lemma OpenLevelHidesCommas(q: string, t: string)
    requires NoTopComma(q) && forall k :: 0 <= k <= |t| ==> After(q + t[..k]).level != 0
    ensures IsSplit(q + t, [q + t])
  {
    var s := q + t;
    forall i | 0 <= i < |s| && s[i] == ',' ensures After(s[..i]) != OUTSIDE {
      if i < |q| {
        assert s[..i] == q[..i];
      } else {
        assert s[..i] == q + t[..i - |q|];
      }
    }
  }

  predicate IsCloser(c: char) {
    c == '}' || c == ']' || c == ')'
  }

  lemma {:induction false} LevelGrows(q: string, t: string, k: nat)
    requires k <= |t| && forall i :: 0 <= i < |t| ==> !IsCloser(t[i])
    ensures After(q + t[..k]).level >= After(q).level
  {
    if k == 0 {
      assert q + t[..0] == q;
    } else {
      LevelGrows(q, t, k - 1);
      assert (q + t[..k])[..|q| + k - 1] == q + t[..k - 1];
    }
  }

  /** Brackets count inside quotes too: after a quoted opening bracket every later comma is
      hidden, outside the quotes as well, until something closes it. */
  lemma QuotedBracketHidesCommas(t: string)
    requires forall i :: 0 <= i < |t| ==> !IsCloser(t[i])
    ensures IsSplit("\"(\"" + t, ["\"(\"" + t])
  {
    var q := "\"(\"";
    assert After("\"") == Scan(true, 0);
    assert "\"("[..1] == "\"" && q[..2] == "\"(";
    assert After("\"(") == Scan(true, 1);
    assert After(q) == Scan(false, 1);
    forall k | 0 <= k <= |t| ensures After(q + t[..k]).level != 0 {
      LevelGrows(q, t, k);
    }
    OpenLevelHidesCommas(q, t);
  }
}
