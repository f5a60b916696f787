/** Every well-formed command line is parsed, to the command it stands for. */
module ShellRoundTrip {
  import opened ShellGrammar
  import opened ShellSyntax

  // ---- Texts inside a line

  predicate Has(s: string, i: int, w: string)
  {
    0 <= i && i + |w| <= |s| && s[i..i + |w|] == w
  }

  lemma HasParts(s: string, i: int, v: string, w: string)
    requires Has(s, i, v + w)
    ensures Has(s, i, v) && Has(s, i + |v|, w) && |v + w| == |v| + |w|
  {
    assert s[i..i + |v|] == (v + w)[..|v|];
    assert s[i + |v|..i + |v| + |w|] == (v + w)[|v|..];
  }

  lemma HasChar(s: string, i: int, w: string, x: int)
    requires Has(s, i, w) && 0 <= x < |w|
    ensures At(s, i + x) == w[x] && 0 <= i + x < |s| && s[i + x] == w[x]
  {
    assert s[i..i + |w|][x] == s[i + x];
  }

  /** No space is to be skipped at i. */
  predicate Clean(s: string, i: int)
  {
    0 <= i <= |s| && !IsSpace(At(s, i))
  }

  lemma CleanSkip(s: string, i: int)
    requires Clean(s, i)
    ensures 0 <= i <= |s| && SkipSpace(s, i) == i
  {
  }

  lemma {:induction false} GapSkips(s: string, i: int, gap: string)
    requires Has(s, i, gap) && AllSpace(gap) && Clean(s, i + |gap|)
    ensures 0 <= i <= |s| && SkipSpace(s, i) == i + |gap|
    decreases |gap|
  {
    if gap != [] {
      HasChar(s, i, gap, 0);
      assert gap == gap[..1] + gap[1..];
      HasParts(s, i, gap[..1], gap[1..]);
      GapSkips(s, i + 1, gap[1..]);
    }
  }

  /** A symbol other than > and the spaces behind it. */
  lemma SymbolRead(s: string, i: int, gap: string)
    requires 0 <= i < |s| && IsSymbol(s[i]) && s[i] != '>' && Has(s, i + 1, gap) && AllSpace(gap) && Clean(s, i + 1 + |gap|)
    ensures Clean(s, i) && GetToken(s, i) == Token(s[i], i, i + 1, i + 1 + |gap|)
  {
    GapSkips(s, i + 1, gap);
    CleanSkip(s, i);
  }

  predicate EndsWord(s: string, j: int)
  {
    j == |s| || (0 <= j < |s| && (IsSpace(s[j]) || IsSymbol(s[j])))
  }

  lemma {:induction false} WordEnd(s: string, i: int, j: int)
    requires 0 <= i <= j && EndsWord(s, j) && forall x :: i <= x < j ==> IsWordChar(s[x])
    ensures SkipWord(s, i) == j
    decreases j - i
  {
    if i < j { WordEnd(s, i + 1, j); }
  }

  /** gettoken reads a word whole, up to a space, a symbol or the end. */
  lemma WordToken(s: string, i: int, w: string)
    requires Has(s, i, w) && IsWord(w) && EndsWord(s, i + |w|)
    ensures GetToken(s, i) == Token('a', i, i + |w|, SkipSpace(s, i + |w|))
  {
    forall x | i <= x < i + |w| ensures IsWordChar(s[x]) { HasChar(s, i, w, x - i); }
    CleanSkip(s, i);
    WordEnd(s, i, i + |w|);
  }

  lemma WordRead(s: string, i: int, w: Word)
    requires Has(s, i, ShowWord(w)) && WordOk(w) && Clean(s, i + |ShowWord(w)|)
    requires w.gap == [] ==> EndsWord(s, i + |ShowWord(w)|)
    ensures Clean(s, i) && IsWordChar(At(s, i))
    ensures var eq := i + |w.text|;
      GetToken(s, i) == Token('a', i, eq, i + |ShowWord(w)|) && Text(s, Span(i, eq)) == w.text
  {
    hide Has, AllSpace, GetToken, SkipSpace, Text, Clean, IsWordChar, At;
    WordStart(s, i, w);
    HasParts(s, i, w.text, w.gap);
    GapEndsWord(s, i + |w.text|, w.gap);
    HasText(s, i, w.text);
    WordToken(s, i, w.text);
    GapSkips(s, i + |w.text|, w.gap);
  }

  lemma HasText(s: string, i: int, w: string)
    requires Has(s, i, w)
    ensures Text(s, Span(i, i + |w|)) == w
  {
  }

  lemma GapEndsWord(s: string, i: int, gap: string)
    requires Has(s, i, gap) && AllSpace(gap)
    ensures gap != [] ==> EndsWord(s, i)
  {
    if gap != [] { HasChar(s, i, gap, 0); }
  }

  lemma WordStart(s: string, i: int, w: Word)
    requires Has(s, i, ShowWord(w)) && WordOk(w)
    ensures Clean(s, i) && IsWordChar(At(s, i))
  {
    HasParts(s, i, w.text, w.gap);
    HasChar(s, i, w.text, 0);
  }

  // ---- Redirections

  function KindOf(sign: Sign): char
  {
    match sign
    case In => '<'
    case Out => '>'
    case Append => '+'
  }

  lemma SignRead(s: string, i: int, sign: Sign, gap: string)
    requires Has(s, i, ShowSign(sign) + gap) && AllSpace(gap)
    requires var j := i + |ShowSign(sign) + gap|; Clean(s, j) && At(s, j) != '>'
    ensures Clean(s, i) && (At(s, i) == '<' || At(s, i) == '>')
    ensures GetToken(s, i) == Token(KindOf(sign), i, i + |ShowSign(sign)|, i + |ShowSign(sign) + gap|)
  {
    var n := |ShowSign(sign)|;
    HasParts(s, i, ShowSign(sign), gap);
    HasChar(s, i, ShowSign(sign), 0);
    if sign == Append { HasChar(s, i, ShowSign(sign), 1); }
    if gap != [] { HasChar(s, i + n, gap, 0); }
    CleanSkip(s, i);
    GapSkips(s, i + n, gap);
  }

  /** What the parser makes of a redirection. */
  predicate WrapIs(s: string, w: Wrap, r: Redirect)
  {
    Text(s, w.file) == r.file.text && TRedir(TExec([]), r.file.text, w.mode, w.fd) == Redirected(TExec([]), r)
  }

  predicate WrapsAre(s: string, wraps: seq<Wrap>, rs: seq<Redirect>)
  {
    |wraps| == |rs| && forall k :: 0 <= k < |rs| ==> WrapIs(s, wraps[k], rs[k])
  }

  lemma RedirectRead(s: string, i: int, r: Redirect)
    requires Has(s, i, ShowRedirect(r)) && RedirectOk(r)
    requires var j := i + |ShowRedirect(r)|; Clean(s, j) && (r.file.gap == [] ==> EndsWord(s, j))
    ensures Clean(s, i) && (At(s, i) == '<' || At(s, i) == '>')
    ensures var t := GetToken(s, i); var f := GetToken(s, t.next);
      f.kind == 'a' && f.next == i + |ShowRedirect(r)| && WrapIs(s, Direction(t.kind, Span(f.q, f.eq)), r)
  {
    hide *;
    var sg := ShowSign(r.sign) + r.gap;
    RedirectShown(r);
    HasParts(s, i, sg, ShowWord(r.file));
    WordRead(s, i + |sg|, r.file);
    NotASign(At(s, i + |sg|));
    SignRead(s, i, r.sign, r.gap);
    WrapOf(s, r, Span(i + |sg|, i + |sg| + |r.file.text|));
  }

  lemma RedirectShown(r: Redirect)
    requires RedirectOk(r)
    ensures ShowRedirect(r) == (ShowSign(r.sign) + r.gap) + ShowWord(r.file) && AllSpace(r.gap) && WordOk(r.file)
  {
    hide ShowSign, ShowWord, WordOk;
  }

  lemma NotASign(c: char)
    requires IsWordChar(c)
    ensures c != '>' && c != '<'
  {
  }

  lemma WrapOf(s: string, r: Redirect, file: Span)
    requires Text(s, file) == r.file.text
    ensures WrapIs(s, Direction(KindOf(r.sign), file), r)
  {
    hide Text;
  }

  lemma RedirsStart(s: string, i: int, rs: seq<Redirect>)
    requires Has(s, i, ShowRedirs(rs)) && RedirsOk(rs) && Clean(s, i + |ShowRedirs(rs)|)
    ensures Clean(s, i)
    ensures rs != [] ==> At(s, i) == '<' || At(s, i) == '>'
  {
    if rs != [] {
      var sg := ShowSign(rs[0].sign);
      HasParts(s, i, ShowRedirect(rs[0]), ShowRedirs(rs[1..]));
      HasParts(s, i, sg, rs[0].gap + ShowWord(rs[0].file));
      HasChar(s, i, sg, 0);
    }
  }

  /** The spaces behind the last redirection. */
  function RedirsGap(rs: seq<Redirect>): string
  {
    if rs == [] then [] else rs[|rs| - 1].file.gap
  }

  lemma NoRedirs(s: string, i: int)
    requires Clean(s, i) && At(s, i) != '<' && At(s, i) != '>'
    ensures ParseRedirs(s, i) == Redirs([], i)
  {
    CleanSkip(s, i);
  }

  lemma RedirsTurn(s: string, i: int, wraps: seq<Wrap>, j: int)
    requires Clean(s, i) && (At(s, i) == '<' || At(s, i) == '>')
    requires var f := GetToken(s, GetToken(s, i).next); f.kind == 'a' && ParseRedirs(s, f.next) == Redirs(wraps, j)
    ensures var t := GetToken(s, i); var f := GetToken(s, t.next);
      ParseRedirs(s, i) == Redirs([Direction(t.kind, Span(f.q, f.eq))] + wraps, j)
  {
    CleanSkip(s, i);
    hide GetToken;
  }

  lemma {:induction false} RedirsRead(s: string, i: int, rs: seq<Redirect>) returns (wraps: seq<Wrap>)
    requires Has(s, i, ShowRedirs(rs)) && RedirsOk(rs)
    requires var j := i + |ShowRedirs(rs)|;
      Clean(s, j) && At(s, j) != '<' && At(s, j) != '>' && (rs != [] && RedirsGap(rs) == [] ==> EndsWord(s, j))
    ensures 0 <= i <= |s| && ParseRedirs(s, i) == Redirs(wraps, i + |ShowRedirs(rs)|) && WrapsAre(s, wraps, rs)
    decreases |rs|
  {
    hide *;
    RedirsUnfold(s, i, rs);
    if rs == [] {
      InLine(s, i);
      NoRedirs(s, i);
      wraps := [];
      WrapsNone(s);
      return;
    }
    var r, rest := rs[0], rs[1..];
    var j := i + |ShowRedirect(r)|;
    HasParts(s, i, ShowRedirect(r), ShowRedirs(rest));
    RedirsStart(s, j, rest);
    SignEndsWord(s, j);
    RedirectRead(s, i, r);
    var ws := RedirsRead(s, j, rest);
    RedirsTurn(s, i, ws, i + |ShowRedirs(rs)|);
    var t := GetToken(s, i);
    var f := GetToken(s, t.next);
    wraps := [Direction(t.kind, Span(f.q, f.eq))] + ws;
    WrapsCons(s, wraps, rs);
    InLine(s, i);
  }

  lemma InLine(s: string, i: int)
    requires Clean(s, i)
    ensures 0 <= i <= |s|
  {
  }

  lemma RedirsUnfold(s: string, i: int, rs: seq<Redirect>)
    requires RedirsOk(rs)
    ensures rs == [] ==> ShowRedirs(rs) == []
    ensures rs != [] ==>
      && ShowRedirs(rs) == ShowRedirect(rs[0]) + ShowRedirs(rs[1..]) && RedirectOk(rs[0]) && RedirsOk(rs[1..])
      && (|rs| == 1 ==> ShowRedirs(rs[1..]) == [] && RedirsGap(rs) == rs[0].file.gap)
      && (|rs| > 1 ==> RedirsGap(rs) == RedirsGap(rs[1..]))
  {
    hide ShowRedirect, RedirectOk;
  }

  lemma SignEndsWord(s: string, j: int)
    ensures 0 <= j <= |s| && (At(s, j) == '<' || At(s, j) == '>') ==> EndsWord(s, j)
  {
  }

  lemma WrapsNone(s: string)
    ensures WrapsAre(s, [], [])
  {
  }

  lemma WrapsCons(s: string, wraps: seq<Wrap>, rs: seq<Redirect>)
    requires wraps != [] && rs != [] && WrapIs(s, wraps[0], rs[0]) && WrapsAre(s, wraps[1..], rs[1..])
    ensures WrapsAre(s, wraps, rs)
  {
    hide WrapIs;
    forall k | 0 <= k < |rs| ensures WrapIs(s, wraps[k], rs[k]) {
      if k > 0 { assert wraps[k] == wraps[1..][k - 1] && rs[k] == rs[1..][k - 1]; }
    }
  }

  lemma WrapsJoin(s: string, w1: seq<Wrap>, r1: seq<Redirect>, w2: seq<Wrap>, r2: seq<Redirect>)
    requires WrapsAre(s, w1, r1) && WrapsAre(s, w2, r2)
    ensures WrapsAre(s, w1 + w2, r1 + r2)
  {
    hide WrapIs;
  }

  lemma {:induction false} WrappedMeans(s: string, c: Cmd, wraps: seq<Wrap>, rs: seq<Redirect>)
    requires WrapsAre(s, wraps, rs)
    ensures Meaning(s, Wrapped(c, wraps)) == AllRedirected(Meaning(s, c), rs)
    decreases |rs|
  {
    if rs != [] {
      assert WrapIs(s, wraps[0], rs[0]);
      WrappedMeans(s, Redir(c, wraps[0]), wraps[1..], rs[1..]);
    }
  }

  // ---- Arguments

  /** What may follow a stage of a pipeline. */
  predicate StageEnd(s: string, j: int)
  {
    j == |s| || (0 <= j < |s| && EndsArgs(s[j]))
  }

  lemma StageEndMeans(s: string, j: int)
    requires StageEnd(s, j)
    ensures Clean(s, j) && EndsWord(s, j) && At(s, j) != '<' && At(s, j) != '>' && At(s, j) != '('
    ensures !IsWordChar(At(s, j))
  {
  }

  lemma ArgsStart(s: string, i: int, args: seq<Arg>)
    requires Has(s, i, ShowArgs(args)) && ArgsOk(args) && StageEnd(s, i + |ShowArgs(args)|)
    ensures Clean(s, i) && At(s, i) != '<' && At(s, i) != '>' && At(s, i) != '('
    ensures args == [] ==> EndsWord(s, i)
    ensures args != [] ==> IsWordChar(At(s, i))
  {
    if args == [] {
      StageEndMeans(s, i);
    } else {
      HasParts(s, i, ShowWord(args[0].word), ShowRedirs(args[0].redirs) + ShowArgs(args[1..]));
      WordStart(s, i, args[0].word);
    }
  }

  lemma ArgsDone(s: string, i: int, argv: seq<Span>, wraps: seq<Wrap>)
    requires StageEnd(s, i)
    ensures 0 <= i <= |s| && ParseArgs(s, i, argv, wraps) == Parsed(Wrapped(Exec(argv), wraps), i)
  {
    StageEndMeans(s, i);
    CleanSkip(s, i);
  }

  lemma ArgsTurn(s: string, i: int, argv: seq<Span>, wraps: seq<Wrap>, t: Token, ws: seq<Wrap>, j: int)
    requires Clean(s, i) && IsWordChar(At(s, i)) && t == GetToken(s, i) && t.kind == 'a' && |argv| + 1 < MAXARGS
    requires ParseRedirs(s, t.next) == Redirs(ws, j)
    ensures ParseArgs(s, i, argv, wraps) == ParseArgs(s, j, argv + [Span(t.q, t.eq)], wraps + ws)
  {
    CleanSkip(s, i);
    hide GetToken, ParseRedirs;
  }

  lemma ArgsUnfold(args: seq<Arg>)
    requires ArgsOk(args) && args != []
    ensures ShowArgs(args) == ShowWord(args[0].word) + (ShowRedirs(args[0].redirs) + ShowArgs(args[1..]))
    ensures WordOk(args[0].word) && RedirsOk(args[0].redirs) && ArgsOk(args[1..])
    ensures LastGap(args[0]) == if args[0].redirs == [] then args[0].word.gap else RedirsGap(args[0].redirs)
    ensures |args| > 1 ==> LastGap(args[0]) != []
    ensures WordsOf(args) == [args[0].word.text] + WordsOf(args[1..])
    ensures RedirsOf(args) == args[0].redirs + RedirsOf(args[1..])
  {
    hide ShowWord, ShowRedirs, WordOk, RedirsOk;
  }

  lemma NoArgs(args: seq<Arg>)
    requires args == []
    ensures ShowArgs(args) == [] && WordsOf(args) == [] && RedirsOf(args) == []
  {
  }

  /** parseexec's loop reads arguments and the redirections among them. */
  lemma {:induction false} ArgsRead(s: string, i: int, args: seq<Arg>, argv: seq<Span>, wraps: seq<Wrap>)
    returns (spans: seq<Span>, ws: seq<Wrap>)
    requires Has(s, i, ShowArgs(args)) && ArgsOk(args) && StageEnd(s, i + |ShowArgs(args)|)
    requires |argv| + |args| < MAXARGS
    ensures 0 <= i <= |s|
    ensures ParseArgs(s, i, argv, wraps) == Parsed(Wrapped(Exec(argv + spans), wraps + ws), i + |ShowArgs(args)|)
    ensures Texts(s, spans) == WordsOf(args) && WrapsAre(s, ws, RedirsOf(args))
    decreases |args|
  {
    hide *;
    if args == [] {
      NoArgs(args);
      ArgsDone(s, i, argv, wraps);
      WrapsNone(s);
      TextsNone(s);
      assert argv + [] == argv && wraps + [] == wraps;
      return [], [];
    }
    var a, rest := args[0], args[1..];
    ArgsUnfold(args);
    HasParts(s, i, ShowWord(a.word), ShowRedirs(a.redirs) + ShowArgs(rest));
    var i1 := i + |ShowWord(a.word)|;
    HasParts(s, i1, ShowRedirs(a.redirs), ShowArgs(rest));
    var i2 := i1 + |ShowRedirs(a.redirs)|;
    ArgsStart(s, i2, rest);
    RedirsStart(s, i1, a.redirs);
    RedirsUnfold(s, i1, a.redirs);
    SignEndsWord(s, i1);
    InLine(s, i1);
    WordRead(s, i, a.word);
    var ws1 := RedirsRead(s, i1, a.redirs);
    var sp := Span(i, i + |a.word.text|);
    InLine(s, i);
    ArgsTurn(s, i, argv, wraps, GetToken(s, i), ws1, i2);
    var spans2, ws2 := ArgsRead(s, i2, rest, argv + [sp], wraps + ws1);
    spans, ws := [sp] + spans2, ws1 + ws2;
    WrapsJoin(s, ws1, a.redirs, ws2, RedirsOf(rest));
    TextsCons(s, sp, spans2);
    assert argv + [sp] + spans2 == argv + spans && wraps + ws1 + ws2 == wraps + ws;
  }

  lemma TextsNone(s: string)
    ensures Texts(s, []) == []
  {
  }

  lemma TextsCons(s: string, a: Span, spans: seq<Span>)
    ensures Texts(s, [a] + spans) == [Text(s, a)] + Texts(s, spans)
  {
  }

  // ---- Stages

  lemma SimpleUnfold(before: seq<Redirect>, args: seq<Arg>)
    requires StageOk(Simple(before, args))
    ensures ShowStage(Simple(before, args)) == ShowRedirs(before) + ShowArgs(args)
    ensures RedirsOk(before) && ArgsOk(args) && |args| < MAXARGS
    ensures before != [] && args != [] ==> RedirsGap(before) != []
    ensures StageTree(Simple(before, args)) == AllRedirected(TExec(WordsOf(args)), before + RedirsOf(args))
  {
  }

  lemma ExecAt(s: string, i: int, ws: seq<Wrap>, j: int)
    requires Clean(s, i) && At(s, i) != '(' && ParseRedirs(s, i) == Redirs(ws, j)
    ensures ParseExec(s, i) == ParseArgs(s, j, [], ws)
  {
    CleanSkip(s, i);
    hide ParseRedirs, ParseArgs;
  }

  lemma SimpleRead(s: string, i: int, before: seq<Redirect>, args: seq<Arg>) returns (c: Cmd)
    requires var e := Simple(before, args); Has(s, i, ShowStage(e)) && StageOk(e) && StageEnd(s, i + |ShowStage(e)|)
    ensures Clean(s, i) && ParseExec(s, i) == Parsed(c, i + |ShowStage(Simple(before, args))|)
    ensures Meaning(s, c) == StageTree(Simple(before, args))
  {
    hide *;
    SimpleUnfold(before, args);
    HasParts(s, i, ShowRedirs(before), ShowArgs(args));
    var i1 := i + |ShowRedirs(before)|;
    ArgsStart(s, i1, args);
    RedirsStart(s, i, before);
    RedirsUnfold(s, i, before);
    var ws1 := RedirsRead(s, i, before);
    ExecAt(s, i, ws1, i1);
    var spans, ws2 := ArgsRead(s, i1, args, [], ws1);
    assert [] + spans == spans;
    c := Wrapped(Exec(spans), ws1 + ws2);
    WrapsJoin(s, ws1, before, ws2, RedirsOf(args));
    WrappedMeans(s, Exec(spans), ws1 + ws2, before + RedirsOf(args));
    ExecMeans(s, spans);
  }

  lemma ExecMeans(s: string, spans: seq<Span>)
    ensures Meaning(s, Exec(spans)) == TExec(Texts(s, spans))
  {
  }

  lemma BlockUnfold(open: string, line: Line, close: string, redirs: seq<Redirect>)
    requires StageOk(Block(open, line, close, redirs))
    ensures AllSpace(open) && LineOk(line) && AllSpace(close) && RedirsOk(redirs)
    ensures ShowStage(Block(open, line, close, redirs))
         == "(" + (open + (ShowLine(line) + (")" + (close + ShowRedirs(redirs)))))
    ensures StageTree(Block(open, line, close, redirs)) == AllRedirected(LineTree(line), redirs)
  {
  }

  /** A block is the line in it with the redirections after it. */
  lemma BlockOf(s: string, i: int, c: Cmd, j: int, wraps: seq<Wrap>, k: int)
    requires Clean(s, i) && i < j < |s| && s[i] == '(' && s[j] == ')' && Clean(s, j)
    requires ParseLine(s, GetToken(s, i).next) == Parsed(c, j) && ParseRedirs(s, GetToken(s, j).next) == Redirs(wraps, k)
    ensures ParseExec(s, i) == Parsed(Wrapped(c, wraps), k)
  {
    hide ParseRedirs, ParsePipe, Wrapped, GetToken;
    CleanSkip(s, i);
    CleanSkip(s, j);
  }

  /** Where the parts of a block are. */
  lemma BlockParts(s: string, i: int, open: string, line: Line, close: string, redirs: seq<Redirect>)
    requires var e := Block(open, line, close, redirs);
      Has(s, i, ShowStage(e)) && StageOk(e) && StageEnd(s, i + |ShowStage(e)|)
    ensures var i1 := i + 1; var i2 := i1 + |open|; var j := i2 + |ShowLine(line)|; var j1 := j + 1; var j2 := j1 + |close|;
      && 0 <= i < |s| && s[i] == '(' && Has(s, i1, open) && Has(s, i2, ShowLine(line))
      && i < j < |s| && s[j] == ')' && Has(s, j1, close) && Has(s, j2, ShowRedirs(redirs))
      && j2 + |ShowRedirs(redirs)| == i + |ShowStage(Block(open, line, close, redirs))|
  {
    hide *;
    BlockUnfold(open, line, close, redirs);
    var c5 := close + ShowRedirs(redirs);
    var c4 := ")" + c5;
    var c3 := ShowLine(line) + c4;
    var c2 := open + c3;
    HasParts(s, i, "(", c2);
    HasParts(s, i + 1, open, c3);
    HasParts(s, i + 1 + |open|, ShowLine(line), c4);
    var j := i + 1 + |open| + |ShowLine(line)|;
    HasParts(s, j, ")", c5);
    HasParts(s, j + 1, close, ShowRedirs(redirs));
    HasChar(s, i, "(", 0);
    HasChar(s, j, ")", 0);
  }

  lemma Parens(s: string, i: int, j: int)
    requires 0 <= i < j < |s| && s[i] == '(' && s[j] == ')'
    ensures Clean(s, i) && Clean(s, j) && LineEnd(s, j) && IsSymbol(s[i]) && IsSymbol(s[j]) && s[i] != '>' && s[j] != '>'
  {
  }

  lemma BlockRead(s: string, i: int, open: string, line: Line, close: string, redirs: seq<Redirect>) returns (c: Cmd)
    requires var e := Block(open, line, close, redirs);
      Has(s, i, ShowStage(e)) && StageOk(e) && StageEnd(s, i + |ShowStage(e)|)
    ensures Clean(s, i) && ParseExec(s, i) == Parsed(c, i + |ShowStage(Block(open, line, close, redirs))|)
    ensures Meaning(s, c) == StageTree(Block(open, line, close, redirs))
    decreases Block(open, line, close, redirs), 1
  {
    hide *;
    BlockUnfold(open, line, close, redirs);
    BlockParts(s, i, open, line, close, redirs);
    var i2 := i + 1 + |open|;
    var j := i2 + |ShowLine(line)|;
    var j2 := j + 1 + |close|;
    Parens(s, i, j);
    StageEndMeans(s, j2 + |ShowRedirs(redirs)|);
    RedirsStart(s, j2, redirs);
    RedirsUnfold(s, j2, redirs);
    var inner := LineRead(s, i2, line);
    SymbolRead(s, i, open);
    SymbolRead(s, j, close);
    var ws := RedirsRead(s, j2, redirs);
    BlockOf(s, i, inner, j, ws, j2 + |ShowRedirs(redirs)|);
    c := Wrapped(inner, ws);
    WrappedMeans(s, inner, ws, redirs);
  }

  lemma StageRead(s: string, i: int, e: Stage) returns (c: Cmd)
    requires Has(s, i, ShowStage(e)) && StageOk(e) && StageEnd(s, i + |ShowStage(e)|)
    ensures Clean(s, i) && ParseExec(s, i) == Parsed(c, i + |ShowStage(e)|) && Meaning(s, c) == StageTree(e)
    decreases e, 2
  {
    match e {
      case Simple(before, args) => c := SimpleRead(s, i, before, args);
      case Block(open, line, close, redirs) => c := BlockRead(s, i, open, line, close, redirs);
    }
  }

  // ---- Pipelines

  /** What may follow a pipeline. */
  predicate ChainEnd(s: string, j: int)
  {
    j == |s| || (0 <= j < |s| && (s[j] == '&' || s[j] == ';' || s[j] == ')'))
  }

  lemma ChainEndMeans(s: string, j: int)
    requires ChainEnd(s, j)
    ensures StageEnd(s, j) && Clean(s, j) && At(s, j) != '|'
  {
  }

  lemma PipeDone(s: string, i: int, c: Cmd, j: int)
    requires Clean(s, i) && ParseExec(s, i) == Parsed(c, j) && ChainEnd(s, j)
    ensures ParsePipe(s, i) == Parsed(c, j)
  {
    hide ParseExec;
    ChainEndMeans(s, j);
    CleanSkip(s, j);
  }

  lemma PipeOf(s: string, i: int, l: Cmd, j: int, r: Cmd, k: int)
    requires Clean(s, i) && ParseExec(s, i) == Parsed(l, j) && 0 <= j < |s| && s[j] == '|'
    requires ParsePipe(s, GetToken(s, j).next) == Parsed(r, k)
    ensures ParsePipe(s, i) == Parsed(Pipe(l, r), k)
  {
    hide ParseExec, GetToken;
    CleanSkip(s, j);
  }

  lemma PipedParts(s: string, i: int, e: Stage, gap: string, rest: Chain)
    requires var c := Piped(e, gap, rest); Has(s, i, ShowChain(c)) && ChainOk(c)
    ensures var j := i + |ShowStage(e)|; var k := j + 1 + |gap|;
      && Has(s, i, ShowStage(e)) && StageOk(e) && 0 <= j < |s| && s[j] == '|' && StageEnd(s, j)
      && IsSymbol(s[j]) && s[j] != '>'
      && Has(s, j + 1, gap) && AllSpace(gap) && Has(s, k, ShowChain(rest)) && ChainOk(rest)
      && k + |ShowChain(rest)| == i + |ShowChain(Piped(e, gap, rest))|
      && ChainTree(Piped(e, gap, rest)) == TPipe(StageTree(e), ChainTree(rest))
  {
    hide *;
    PipedUnfold(e, gap, rest);
    var j := i + |ShowStage(e)|;
    HasParts(s, i, ShowStage(e), "|" + (gap + ShowChain(rest)));
    HasParts(s, j, "|", gap + ShowChain(rest));
    HasParts(s, j + 1, gap, ShowChain(rest));
    HasChar(s, j, "|", 0);
    BarEnds(s, j);
  }

  lemma PipedUnfold(e: Stage, gap: string, rest: Chain)
    ensures var c := Piped(e, gap, rest);
      && ShowChain(c) == ShowStage(e) + ("|" + (gap + ShowChain(rest)))
      && (ChainOk(c) ==> StageOk(e) && AllSpace(gap) && ChainOk(rest))
      && ChainTree(c) == TPipe(StageTree(e), ChainTree(rest))
  {
  }

  lemma BarEnds(s: string, j: int)
    requires 0 <= j < |s| && s[j] == '|'
    ensures StageEnd(s, j) && IsSymbol(s[j])
  {
  }

  lemma AloneIs(e: Stage)
    ensures ShowChain(Alone(e)) == ShowStage(e) && ChainTree(Alone(e)) == StageTree(e) && (ChainOk(Alone(e)) ==> StageOk(e))
  {
  }

  lemma PipeMeans(s: string, l: Cmd, r: Cmd)
    ensures Meaning(s, Pipe(l, r)) == TPipe(Meaning(s, l), Meaning(s, r))
  {
  }

  lemma {:induction false} ChainRead(s: string, i: int, ch: Chain) returns (c: Cmd)
    requires Has(s, i, ShowChain(ch)) && ChainOk(ch) && ChainEnd(s, i + |ShowChain(ch)|)
    ensures Clean(s, i) && ParsePipe(s, i) == Parsed(c, i + |ShowChain(ch)|) && Meaning(s, c) == ChainTree(ch)
    decreases ch, 3
  {
    hide *;
    match ch {
      case Alone(e) =>
        AloneIs(e);
        ChainEndMeans(s, i + |ShowChain(ch)|);
        c := StageRead(s, i, e);
        PipeDone(s, i, c, i + |ShowChain(ch)|);
      case Piped(e, gap, rest) =>
        PipedParts(s, i, e, gap, rest);
        var j := i + |ShowStage(e)|;
        var l := StageRead(s, i, e);
        var r := ChainRead(s, j + 1 + |gap|, rest);
        SymbolRead(s, j, gap);
        PipeOf(s, i, l, j, r, i + |ShowChain(ch)|);
        c := Pipe(l, r);
        PipeMeans(s, l, r);
    }
  }

  // ---- Lines

  /** What may follow a line. */
  predicate LineEnd(s: string, j: int)
  {
    j == |s| || (0 <= j < |s| && s[j] == ')')
  }

  lemma LineEndMeans(s: string, j: int)
    requires LineEnd(s, j)
    ensures ChainEnd(s, j) && Clean(s, j) && At(s, j) != '&' && At(s, j) != ';'
  {
  }

  function BackedCmd(c: Cmd, n: nat): Cmd
    decreases n
  {
    if n == 0 then c else BackedCmd(Back(c), n - 1)
  }

  lemma {:induction false} BackedMeans(s: string, c: Cmd, n: nat)
    ensures Meaning(s, BackedCmd(c, n)) == Backs(Meaning(s, c), n)
    decreases n
  {
    if n > 0 { BackedMeans(s, Back(c), n - 1); }
  }

  lemma BacksParts(s: string, i: int, gs: seq<string>)
    requires Has(s, i, ShowBacks(gs)) && gs != []
    ensures var k := i + 1 + |gs[0]|;
      && 0 <= i < |s| && s[i] == '&' && At(s, i) == '&' && IsSymbol(s[i]) && s[i] != '>' && Has(s, i + 1, gs[0])
      && Has(s, k, ShowBacks(gs[1..])) && k + |ShowBacks(gs[1..])| == i + |ShowBacks(gs)| && ChainEnd(s, i)
  {
    HasParts(s, i, "&", gs[0] + ShowBacks(gs[1..]));
    HasParts(s, i + 1, gs[0], ShowBacks(gs[1..]));
    HasChar(s, i, "&", 0);
    hide Has;
  }

  /** What comes behind a pipeline: ampersands, or what follows them. */
  lemma BacksStart(s: string, i: int, gs: seq<string>)
    requires Has(s, i, ShowBacks(gs)) && Clean(s, i + |ShowBacks(gs)|)
    ensures Clean(s, i) && (gs != [] ==> ChainEnd(s, i))
  {
    if gs != [] { BacksParts(s, i, gs); }
  }

  lemma BacksTurn(s: string, c: Cmd, i: int)
    requires Clean(s, i) && At(s, i) == '&'
    ensures ParseBacks(s, c, i) == ParseBacks(s, Back(c), GetToken(s, i).next)
  {
    CleanSkip(s, i);
    hide GetToken;
  }

  lemma BacksDone(s: string, c: Cmd, i: int)
    requires Clean(s, i) && At(s, i) != '&'
    ensures ParseBacks(s, c, i) == Parsed(c, i)
  {
    CleanSkip(s, i);
  }

  lemma {:induction false} BacksRead(s: string, i: int, gs: seq<string>, c: Cmd)
    requires Has(s, i, ShowBacks(gs)) && forall k :: 0 <= k < |gs| ==> AllSpace(gs[k])
    requires var j := i + |ShowBacks(gs)|; Clean(s, j) && At(s, j) != '&'
    ensures 0 <= i <= |s| && ParseBacks(s, c, i) == Parsed(BackedCmd(c, |gs|), i + |ShowBacks(gs)|)
    decreases |gs|
  {
    hide *;
    BacksStart(s, i, gs);
    InLine(s, i);
    BackedUnfold(c, gs);
    if gs == [] {
      BacksDone(s, c, i);
      return;
    }
    BacksParts(s, i, gs);
    var k := i + 1 + |gs[0]|;
    BacksStart(s, k, gs[1..]);
    SymbolRead(s, i, gs[0]);
    BacksTurn(s, c, i);
    BacksRead(s, k, gs[1..], Back(c));
  }

  lemma BackedUnfold(c: Cmd, gs: seq<string>)
    ensures gs == [] ==> ShowBacks(gs) == [] && BackedCmd(c, |gs|) == c
    ensures gs != [] ==> BackedCmd(c, |gs|) == BackedCmd(Back(c), |gs[1..]|)
  {
  }

  lemma LineUnfold(l: Line)
    requires LineOk(l)
    ensures ShowLine(l) == ShowChain(l.chain) + (ShowBacks(l.backs) + ShowMore(l.more))
    ensures ChainOk(l.chain) && forall k :: 0 <= k < |l.backs| ==> AllSpace(l.backs[k])
    ensures l.more.Then? ==> AllSpace(l.more.gap) && LineOk(l.more.line)
    ensures LineTree(l) == var t := Backs(ChainTree(l.chain), |l.backs|);
      if l.more.End? then t else TList(t, LineTree(l.more.line))
  {
  }

  lemma MoreParts(s: string, i: int, m: More)
    requires Has(s, i, ShowMore(m)) && LineEnd(s, i + |ShowMore(m)|)
    ensures Clean(s, i) && ChainEnd(s, i) && At(s, i) != '&'
    ensures m.End? ==> |ShowMore(m)| == 0 && At(s, i) != ';'
    ensures m.Then? ==>
      var k := i + 1 + |m.gap|;
      && 0 <= i < |s| && s[i] == ';' && IsSymbol(s[i]) && s[i] != '>' && Has(s, i + 1, m.gap) && Has(s, k, ShowLine(m.line))
      && k + |ShowLine(m.line)| == i + |ShowMore(m)|
  {
    match m {
      case End => LineEndMeans(s, i);
      case Then(gap, line) =>
        HasParts(s, i, ";", gap + ShowLine(line));
        HasParts(s, i + 1, gap, ShowLine(line));
        HasChar(s, i, ";", 0);
        hide Has, ShowLine;
    }
  }

  lemma LineDone(s: string, i: int, c: Cmd, j: int, b: Cmd, k: int)
    requires Clean(s, i) && ParsePipe(s, i) == Parsed(c, j) && ParseBacks(s, c, j) == Parsed(b, k)
    requires Clean(s, k) && At(s, k) != ';'
    ensures ParseLine(s, i) == Parsed(b, k)
  {
    hide ParsePipe, ParseBacks;
    CleanSkip(s, k);
  }

  lemma ListOf(s: string, i: int, c: Cmd, j: int, b: Cmd, k: int, r: Cmd, e: int)
    requires Clean(s, i) && ParsePipe(s, i) == Parsed(c, j) && ParseBacks(s, c, j) == Parsed(b, k)
    requires 0 <= k < |s| && s[k] == ';' && ParseLine(s, GetToken(s, k).next) == Parsed(r, e)
    ensures ParseLine(s, i) == Parsed(List(b, r), e)
  {
    hide ParsePipe, ParseBacks, GetToken;
    CleanSkip(s, k);
  }

  lemma ListMeans(s: string, l: Cmd, r: Cmd)
    ensures Meaning(s, List(l, r)) == TList(Meaning(s, l), Meaning(s, r))
  {
  }

  lemma {:induction false} LineRead(s: string, i: int, l: Line) returns (c: Cmd)
    requires Has(s, i, ShowLine(l)) && LineOk(l) && LineEnd(s, i + |ShowLine(l)|)
    ensures Clean(s, i) && 0 <= i <= |s| && ParseLine(s, i) == Parsed(c, i + |ShowLine(l)|) && Meaning(s, c) == LineTree(l)
    decreases l, 4
  {
    hide *;
    LineUnfold(l);
    HasParts(s, i, ShowChain(l.chain), ShowBacks(l.backs) + ShowMore(l.more));
    var j := i + |ShowChain(l.chain)|;
    HasParts(s, j, ShowBacks(l.backs), ShowMore(l.more));
    var k := j + |ShowBacks(l.backs)|;
    MoreParts(s, k, l.more);
    BacksStart(s, j, l.backs);
    BackedUnfold(Exec([]), l.backs);
    var p := ChainRead(s, i, l.chain);
    InLine(s, i);
    BacksRead(s, j, l.backs, p);
    var b := BackedCmd(p, |l.backs|);
    BackedMeans(s, p, |l.backs|);
    if l.more.End? {
      c := b;
      LineDone(s, i, p, j, b, k);
    } else {
      var r := LineRead(s, k + 1 + |l.more.gap|, l.more.line);
      SymbolRead(s, k, l.more.gap);
      ListOf(s, i, p, j, b, k, r, i + |ShowLine(l)|);
      c := List(b, r);
      ListMeans(s, b, r);
    }
  }

  /** parsecmd accepts every well-formed line, with any spaces before it, and builds the command that the line
      stands for. */
  lemma AcceptsLines(lead: string, l: Line)
    requires AllSpace(lead) && LineOk(l)
    ensures var s := lead + ShowLine(l); ParseCmd(s).Parsed? && Meaning(s, ParseCmd(s).cmd) == LineTree(l)
  {
    hide *;
    var s := lead + ShowLine(l);
    WholeLine(s);
    HasParts(s, 0, lead, ShowLine(l));
    var c := LineRead(s, |lead|, l);
    GapSkips(s, 0, lead);
    LineSkips(s, 0);
    CmdIs(s, c);
  }

  lemma WholeLine(s: string)
    ensures Has(s, 0, s) && LineEnd(s, |s|)
  {
    assert s[0..|s|] == s;
  }

  lemma CmdIs(s: string, c: Cmd)
    requires ParseLine(s, 0) == Parsed(c, |s|)
    ensures ParseCmd(s) == Parsed(c, |s|)
  {
    hide ParseLine;
  }

  /** Leading spaces do not matter. */
  lemma LineSkips(s: string, i: int)
    requires 0 <= i <= |s|
    ensures ParseLine(s, SkipSpace(s, i)) == ParseLine(s, i)
  {
    SkipTwice(s, i);
    ExecSkips(s, i);
    hide ParseExec;
    assert ParsePipe(s, SkipSpace(s, i)) == ParsePipe(s, i);
    hide ParsePipe;
  }

  lemma ExecSkips(s: string, i: int)
    requires 0 <= i <= |s|
    ensures ParseExec(s, SkipSpace(s, i)) == ParseExec(s, i)
  {
    SkipTwice(s, i);
    hide SkipSpace, ParseBlock, ParseRedirs, ParseArgs;
  }

  lemma SkipTwice(s: string, i: int)
    requires 0 <= i <= |s|
    ensures SkipSpace(s, SkipSpace(s, i)) == SkipSpace(s, i)
  {
  }
}
