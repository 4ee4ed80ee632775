/** Argument texts as a tracer prints them, and how the splitter treats them. */
module SplitText {
  import opened SplitArgs

  datatype Bracket = Round | Square | Curly

  /** Plain characters, quoted strings and bracketed groups, one after the other. */
  datatype Text =
    | Nil
    | Plain(c: char, rest: Text)
    | Quoted(q: string, rest: Text)
    | Group(bracket: Bracket, body: Text, rest: Text)

  function Opening(b: Bracket): char {
    match b
    case Round => '('
    case Square => '['
    case Curly => '{'
  }

  function Closing(b: Bracket): char {
    match b
    case Round => ')'
    case Square => ']'
    case Curly => '}'
  }

  function Show(t: Text): string {
    match t
    case Nil => ""
    case Plain(c, rest) => [c] + Show(rest)
    case Quoted(q, rest) => "\"" + q + "\"" + Show(rest)
    case Group(b, body, rest) => [Opening(b)] + Show(body) + [Closing(b)] + Show(rest)
  }

  predicate IsBracket(c: char) {
    c in "()[]{}"
  }

  /** Quotes in a quoted string follow a backslash, and its last character is none. */
  predicate QuoteOk(q: string) {
    && (forall i :: 0 <= i < |q| ==> !IsBracket(q[i]))
    && (forall i :: 0 <= i < |q| && q[i] == '"' ==> i > 0 && q[i - 1] == '\\')
    && (q != "" ==> q[|q| - 1] != '\\')
  }

  /** `top`: not inside a group, so that a plain comma would end the argument. */
  predicate TextOk(t: Text, top: bool) {
    match t
    case Nil => true
    case Plain(c, rest) => c != '"' && c != '\\' && !IsBracket(c) && !(top && c == ',') && TextOk(rest, top)
    case Quoted(q, rest) => QuoteOk(q) && TextOk(rest, top)
    case Group(_, body, rest) => TextOk(body, false) && TextOk(rest, top)
  }

  // ----- the scan of such a text -----

  lemma AfterSnoc(pre: string, c: char)
    ensures After(pre + [c]) == Advance(pre, After(pre), c)
  {
    assert (pre + [c])[..|pre|] == pre;
  }

  /** No comma of s, read behind pre, is one the scanner would split at. */
  ghost predicate Hides(pre: string, s: string) {
    forall i :: 0 <= i < |s| && s[i] == ',' ==> After(pre + s[..i]) != OUTSIDE
  }

  predicate EndsQuotable(pre: string) {
    pre == "" || pre[|pre| - 1] != '\\'
  }

  lemma HidesConcat(pre: string, a: string, b: string)
    requires Hides(pre, a) && Hides(pre + a, b)
    ensures Hides(pre, a + b)
  {
    hide After;
    forall i | 0 <= i < |a + b| && (a + b)[i] == ',' ensures After(pre + (a + b)[..i]) != OUTSIDE {
      if i < |a| {
        assert (a + b)[..i] == a[..i];
      } else {
        assert pre + (a + b)[..i] == pre + a + b[..i - |a|];
      }
    }
  }

  lemma HidesOne(pre: string, c: char)
    requires c == ',' ==> After(pre) != OUTSIDE
    ensures Hides(pre, [c])
  {
    hide After;
    assert pre + [c][..0] == pre;
  }

  /** Inside quotes nothing but a quote without a backslash before it ends them. */
  lemma {:induction false} InQuotes(pre: string, q: string, n: nat)
    requires n <= |q| && After(pre).inQuotes && pre != "" && pre[|pre| - 1] == '"'
    requires forall i :: 0 <= i < |q| ==> !IsBracket(q[i])
    requires forall i :: 0 <= i < |q| && q[i] == '"' ==> i > 0 && q[i - 1] == '\\'
    ensures After(pre + q[..n]) == After(pre)
  {
    if n == 0 {
      assert pre + q[..0] == pre;
    } else {
      InQuotes(pre, q, n - 1);
      var before := pre + q[..n - 1];
      assert pre + q[..n] == before + [q[n - 1]];
      AfterSnoc(before, q[n - 1]);
      if q[n - 1] == '"' {
        assert before[|before| - 1] == q[n - 2];
      }
    }
  }

  lemma QuotedKeeps(pre: string, q: string)
    requires QuoteOk(q) && !After(pre).inQuotes && EndsQuotable(pre)
    ensures var s := "\"" + q + "\""; After(pre + s) == After(pre) && Hides(pre, s)
  {
    hide After, IsBracket;
    var open, s := pre + "\"", "\"" + q + "\"";
    AfterSnoc(pre, '"');
    InQuotes(open, q, |q|);
    assert q[..|q|] == q;
    AfterSnoc(open + q, '"');
    assert pre + s == (open + q) + "\"";
    forall i | 0 <= i < |s| && s[i] == ',' ensures After(pre + s[..i]) != OUTSIDE {
      InQuotes(open, q, i - 1);
      assert pre + s[..i] == open + q[..i - 1];
    }
  }

  lemma GroupKeeps(pre: string, b: Bracket, inner: string)
    requires !After(pre).inQuotes
    requires var open := pre + [Opening(b)];
      After(open + inner) == After(open) && Hides(open, inner)
    ensures var s := [Opening(b)] + inner + [Closing(b)]; After(pre + s) == After(pre) && Hides(pre, s)
  {
    hide After, Hides;
    var open := pre + [Opening(b)];
    AfterSnoc(pre, Opening(b));
    AfterSnoc(open + inner, Closing(b));
    assert pre + ([Opening(b)] + inner + [Closing(b)]) == (open + inner) + [Closing(b)];
    HidesOne(pre, Opening(b));
    HidesConcat(pre, [Opening(b)], inner);
    assert pre + ([Opening(b)] + inner) == open + inner;
    HidesOne(open + inner, Closing(b));
    HidesConcat(pre, [Opening(b)] + inner, [Closing(b)]);
  }

  lemma PlainKeeps(pre: string, c: char)
    requires c != '"' && !IsBracket(c)
    ensures After(pre + [c]) == After(pre)
  {
    AfterSnoc(pre, c);
  }

  /** A text leaves the scanner as it was, and no comma in it is split at. */
  lemma {:induction false} ShowKeeps(pre: string, t: Text, top: bool)
    requires TextOk(t, top) && !After(pre).inQuotes && EndsQuotable(pre)
    requires !top ==> After(pre).level > 0
    requires top ==> After(pre).level >= 0
    ensures After(pre + Show(t)) == After(pre) && Hides(pre, Show(t))
    decreases t
  {
    hide After, Hides, QuoteOk, IsBracket;
    match t {
      case Nil =>
        assert pre + "" == pre;
        NothingHidden(pre);
      case Plain(c, rest) =>
        PlainKeeps(pre, c);
        HidesOne(pre, c);
        ShowKeeps(pre + [c], rest, top);
        Appended(pre, [c], rest);
      case Quoted(q, rest) =>
        var x := "\"" + q + "\"";
        QuotedKeeps(pre, q);
        ShowKeeps(pre + x, rest, top);
        Appended(pre, x, rest);
      case Group(b, body, rest) =>
        var x := [Opening(b)] + Show(body) + [Closing(b)];
        AfterSnoc(pre, Opening(b));
        ShowKeeps(pre + [Opening(b)], body, false);
        GroupKeeps(pre, b, Show(body));
        ShowKeeps(pre + x, rest, top);
        Appended(pre, x, rest);
    }
  }

  lemma NothingHidden(pre: string)
    ensures Hides(pre, "")
  {
  }

  lemma Appended(pre: string, x: string, rest: Text)
    requires After(pre + x) == After(pre) && Hides(pre, x)
    requires After(pre + x + Show(rest)) == After(pre + x) && Hides(pre + x, Show(rest))
    ensures After(pre + (x + Show(rest))) == After(pre) && Hides(pre, x + Show(rest))
  {
    hide After, Hides;
    HidesConcat(pre, x, Show(rest));
    assert pre + (x + Show(rest)) == pre + x + Show(rest);
  }

  // ----- splitting -----

  /** A text is one piece, and behind it a comma splits again. */
  lemma TextIsOnePiece(t: Text, rest: string, ps: seq<string>)
    requires TextOk(t, true) && IsSplit(rest, ps)
    ensures IsSplit(Show(t), [Show(t)])
    ensures IsSplit(Show(t) + "," + rest, [Show(t)] + ps)
  {
    TextScan(t);
    assert ([Show(t)] + ps)[1..] == ps;
  }

  lemma TextScan(t: Text)
    requires TextOk(t, true)
    ensures After(Show(t)) == OUTSIDE && NoTopComma(Show(t))
  {
    ShowKeeps("", t, true);
    assert "" + Show(t) == Show(t);
    assert forall i :: 0 <= i < |Show(t)| ==> "" + Show(t)[..i] == Show(t)[..i];
  }

  /** In particular a bracketed text of plain characters, commas included, in each of the
      three kinds of brackets. */
  lemma BracketedIsOnePiece(inner: string, rest: string, ps: seq<string>)
    requires forall c :: c in inner ==> c !in "\"\\()[]{}"
    requires IsSplit(rest, ps)
    ensures IsSplit("(" + inner + ")," + rest, ["(" + inner + ")"] + ps)
    ensures IsSplit("[" + inner + "]," + rest, ["[" + inner + "]"] + ps)
    ensures IsSplit("{" + inner + "}," + rest, ["{" + inner + "}"] + ps)
  {
    hide IsSplit;
    var body := AsPlain(inner);
    AsPlainOk(inner);
    forall b ensures var s := [Opening(b)] + inner + [Closing(b)]; IsSplit(s + "," + rest, [s] + ps) {
      TextIsOnePiece(Group(b, body, Nil), rest, ps);
      assert Show(Group(b, body, Nil)) == [Opening(b)] + inner + [Closing(b)];
    }
    assert [Opening(Round)] == "(" && [Closing(Round)] == ")";
    assert [Opening(Square)] == "[" && [Closing(Square)] == "]";
    assert [Opening(Curly)] == "{" && [Closing(Curly)] == "}";
    assert "(" + inner + ")," + rest == "(" + inner + ")" + "," + rest;
    assert "[" + inner + "]," + rest == "[" + inner + "]" + "," + rest;
    assert "{" + inner + "}," + rest == "{" + inner + "}" + "," + rest;
  }

  function AsPlain(s: string): Text {
    if s == "" then Nil else Plain(s[0], AsPlain(s[1..]))
  }

  lemma {:induction false} AsPlainOk(s: string)
    requires forall c :: c in s ==> c !in "\"\\()[]{}"
    ensures TextOk(AsPlain(s), false) && Show(AsPlain(s)) == s
    ensures ',' !in s ==> TextOk(AsPlain(s), true)
  {
    if s != "" {
      AsPlainOk(s[1..]);
      assert s == [s[0]] + s[1..] && s[0] in s;
    }
  }

  /** A quoted text without brackets, commas and escaped quotes included. */
  lemma QuotedIsOnePiece(q: string, rest: string, ps: seq<string>)
    requires forall c :: c in q ==> c !in "()[]{}"
    requires forall i :: 0 <= i < |q| && q[i] == '"' ==> i > 0 && q[i - 1] == '\\'
    requires q != "" ==> q[|q| - 1] != '\\'
    requires IsSplit(rest, ps)
    ensures IsSplit("\"" + q + "\"," + rest, ["\"" + q + "\""] + ps)
  {
    hide IsSplit;
    TextIsOnePiece(Quoted(q, Nil), rest, ps);
    assert Show(Quoted(q, Nil)) == "\"" + q + "\"";
    assert "\"" + q + "\"," + rest == "\"" + q + "\"" + "," + rest;
  }

  /** A backslash at the end of a quoted text hides its closing quote: the next comma does not
      split, though the backslash may be escaped itself. */
  lemma BackslashHidesQuote(q: string, rest: string)
    requires QuoteOk(q) && forall c :: c in rest ==> c != '"' && !IsBracket(c)
    ensures var s := "\"" + q + "\\\"" + rest; IsSplit(s, [s])
  {
    hide After;
    var pre, s := "\"" + q + "\\\"", "\"" + q + "\\\"" + rest;
    OpenQuote();
    InQuotes("\"", q + "\\\"", |q| + 2);
    assert "\"" + (q + "\\\"")[..|q| + 2] == pre;
    forall i | 0 <= i < |s| && s[i] == ',' ensures After(s[..i]) != OUTSIDE {
      if i < |pre| {
        InQuotes("\"", q + "\\\"", i - 1);
        assert s[..i] == "\"" + (q + "\\\"")[..i - 1];
      } else {
        StaysQuoted(pre, rest, i - |pre|);
        assert s[..i] == pre + rest[..i - |pre|];
      }
    }
  }

  lemma OpenQuote()
    ensures After("\"") == Scan(true, 0)
  {
    AfterSnoc("", '"');
    assert "" + ['"'] == "\"";
  }

  lemma {:induction false} StaysQuoted(pre: string, rest: string, n: nat)
    requires n <= |rest| && After(pre).inQuotes && forall c :: c in rest ==> c != '"' && !IsBracket(c)
    ensures After(pre + rest[..n]) == After(pre)
  {
    if n == 0 {
      assert pre + rest[..0] == pre;
    } else {
      StaysQuoted(pre, rest, n - 1);
      assert pre + rest[..n] == (pre + rest[..n - 1]) + [rest[n - 1]];
      assert rest[n - 1] in rest;
      AfterSnoc(pre + rest[..n - 1], rest[n - 1]);
    }
  }

  /** A closing bracket too many hides commas just as an opening one does. */
  lemma LoneCloserHides(rest: string)
    requires forall c :: c in rest ==> !IsBracket(c)
    ensures IsSplit(")" + rest, [")" + rest])
  {
    AfterSnoc("", ')');
    assert "" + [')'] == ")";
    forall k | 0 <= k <= |rest| ensures After(")" + rest[..k]).level != 0 {
      SameLevel(")", rest, k);
    }
    assert NoTopComma(")");
    OpenLevelHidesCommas(")", rest);
  }

  lemma LevelKept(pre: string, c: char)
    requires !IsBracket(c)
    ensures After(pre + [c]).level == After(pre).level
  {
    AfterSnoc(pre, c);
  }

  lemma {:induction false} SameLevel(pre: string, rest: string, n: nat)
    requires n <= |rest| && forall c :: c in rest ==> !IsBracket(c)
    ensures After(pre + rest[..n]).level == After(pre).level
  {
    hide After, IsBracket;
    if n == 0 {
      assert pre + rest[..0] == pre;
    } else {
      SameLevel(pre, rest, n - 1);
      assert pre + rest[..n] == (pre + rest[..n - 1]) + [rest[n - 1]];
      assert rest[n - 1] in rest;
      LevelKept(pre + rest[..n - 1], rest[n - 1]);
    }
  }

  // ----- the white space that is stripped -----

  /** The ASCII characters that Python's str.strip removes. */
  lemma SpaceTable(c: char)
    ensures IsSpace(c) <==> c in "\t\n\U{0b}\U{0c}\r\U{1c}\U{1d}\U{1e}\U{1f} "
  {
  }

  /** Not empty, and with no white space at either end. */
  predicate Trimmed(s: string) {
    s != "" && s[0] !in "\t\n\U{0b}\U{0c}\r\U{1c}\U{1d}\U{1e}\U{1f} "
    && s[|s| - 1] !in "\t\n\U{0b}\U{0c}\r\U{1c}\U{1d}\U{1e}\U{1f} "
  }

  lemma TextIsProper(t: Text)
    requires TextOk(t, true) && Trimmed(Show(t))
    ensures Proper(Show(t)) && Padded(Show(t), Show(t)) && After(Show(t)) == OUTSIDE
  {
    hide After, NoTopComma, IsSpace;
    var s := Show(t);
    TextScan(t);
    SpaceTable(s[0]);
    SpaceTable(s[|s| - 1]);
    assert AllSpace("") && s == "" + s + "";
  }

  function ShowAll(texts: seq<Text>): (r: seq<string>)
    ensures |r| == |texts|
  {
    seq(|texts|, i requires 0 <= i < |texts| => Show(texts[i]))
  }

  /** Joining argument texts with commas and splitting the result gives them back. */
  method SplitShown(texts: seq<Text>) returns (args: seq<string>)
    requires forall i :: 0 <= i < |texts| ==> TextOk(texts[i], true) && Trimmed(Show(texts[i]))
    ensures args == ShowAll(texts)
  {
    hide TextOk, Trimmed, Show, Proper, Padded, After, IsSplit;
    var shown := ShowAll(texts);
    args := Split(Join(shown));
    forall i | 0 <= i < |shown| ensures Proper(shown[i]) && Padded(shown[i], shown[i]) && After(shown[i]) == OUTSIDE {
      TextIsProper(texts[i]);
    }
    SplitUndoesJoin(shown, shown, args);
  }

  /** An execve line: between two other arguments a list in brackets, whose comma is kept. */
  method ExecveLine(path: string, x: string, y: string, envp: string) returns (args: seq<string>)
    requires QuoteOk(path) && QuoteOk(x) && QuoteOk(y)
    requires Trimmed(envp) && forall c :: c in envp ==> c !in ",\"\\()[]{}"
    ensures args == ["\"" + path + "\"", "[\"" + x + "\", \"" + y + "\"]", envp]
  {
    hide TextOk, Proper, After, IsSplit, Padded, Join, QuoteOk, AsPlain;
    ghost var first, list, last := Quoted(path, Nil), ListText(x, y), AsPlain(envp);
    var a, b, c := "\"" + path + "\"", "[\"" + x + "\", \"" + y + "\"]", envp;
    ListTextOk(path, x, y);
    AsPlainOk(envp);
    assert Trimmed(a) && Trimmed(b);
    TextIsProper(first);
    TextIsProper(list);
    TextIsProper(last);
    SpaceInFront(b);
    SpaceInFront(c);
    args := Split(a + ", " + b + ", " + c);
    JoinOfThree(a, " " + b, " " + c);
    assert a + ", " + b + ", " + c == a + "," + (" " + b) + "," + (" " + c);
    SplitUndoesJoin([a, " " + b, " " + c], [a, b, c], args);
  }

  function ListText(x: string, y: string): Text {
    Group(Square, Quoted(x, Plain(',', Plain(' ', Quoted(y, Nil)))), Nil)
  }

  lemma ListTextOk(path: string, x: string, y: string)
    requires QuoteOk(path) && QuoteOk(x) && QuoteOk(y)
    ensures TextOk(Quoted(path, Nil), true) && Show(Quoted(path, Nil)) == "\"" + path + "\""
    ensures TextOk(ListText(x, y), true) && Show(ListText(x, y)) == "[\"" + x + "\", \"" + y + "\"]"
  {
    hide QuoteOk;
    var tail := Quoted(y, Nil);
    assert TextOk(Nil, false) && Show(Nil) == "";
    ShowQuoted(y, Nil);
    assert TextOk(tail, false);
    var sep := Plain(',', Plain(' ', tail));
    assert TextOk(Plain(' ', tail), false) && TextOk(sep, false);
    ShowPlain(' ', tail);
    ShowPlain(',', Plain(' ', tail));
    assert [','] + ([' '] + Show(tail)) == ", " + Show(tail);
    var body := Quoted(x, sep);
    ShowQuoted(x, sep);
    assert TextOk(body, false);
    assert ListText(x, y) == Group(Square, body, Nil);
  }

  lemma ShowPlain(c: char, rest: Text)
    ensures Show(Plain(c, rest)) == [c] + Show(rest)
  {
  }

  lemma ShowQuoted(q: string, rest: Text)
    ensures Show(Quoted(q, rest)) == "\"" + q + "\"" + Show(rest)
  {
  }

  lemma SpaceInFront(s: string)
    ensures Padded(" " + s, s)
  {
    assert AllSpace(" ") && AllSpace("") && " " + s == " " + s + "";
  }

  lemma JoinOfThree(a: string, b: string, c: string)
    ensures Join([a, b, c]) == a + "," + b + "," + c
  {
    assert [a, b, c][1..] == [b, c] && [b, c][1..] == [c];
    assert Join([b, c]) == b + "," + c;
  }

  /** Behind a comma, a blank last argument counts and an empty one does not. */
  method LastArgument(s: string) returns (blank: seq<string>, empty: seq<string>, none: seq<string>)
    requires Trimmed(s) && forall c :: c in s ==> c !in ",\"\\()[]{}"
    ensures blank == [s, ""] && empty == [s] && none == []
  {
    hide IsSplit, Strip, After, NoTopComma, AsPlain, TextOk;
    blank := Split(s + ", ");
    empty := Split(s + ",");
    none := Split("");
    AsPlainOk(s);
    TextIsProper(AsPlain(s));
    SpaceOnly();
    assert Padded(s, s);
    PaddedPiece(s, s);
    TextIsOnePiece(AsPlain(s), " ", [" "]);
    TextIsOnePiece(AsPlain(s), "", [""]);
    assert s + "," + " " == s + ", ";
    OnlySplit(s + ", ", [s] + [" "], blank);
    assert s + "," + "" == s + ",";
    OnlySplit(s + ",", [s] + [""], empty);
    assert ([s] + [""])[..1] == [s];
    OnlySplit("", [""], none);
  }

  lemma SpaceOnly()
    ensures IsSplit(" ", [" "]) && IsSplit("", [""]) && Strip(" ") == ""
  {
  }

  lemma OnlySplit(s: string, pieces: seq<string>, args: seq<string>)
    requires IsSplit(s, pieces) && exists ps :: IsSplit(s, ps) && args == ArgsOf(ps)
    ensures args == ArgsOf(pieces)
  {
    hide After, NoTopComma;
    var ps :| IsSplit(s, ps) && args == ArgsOf(ps);
    SplitUnique(s, ps, pieces);
  }
}
