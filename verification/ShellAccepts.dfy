/** The shell's parser accepts well-formed command lines and nothing else; and commands printed with no more
    parentheses than needed are recovered.
 */
module ShellAccepts {
  import opened ShellGrammar
  import opened ShellSyntax
  import opened ShellRoundTrip

  /** Command lines end at their first NUL. */
  predicate NoNul(s: string)
  {
    forall x :: 0 <= x < |s| ==> s[x] != NUL
  }

  // ---- Tokens

  lemma {:induction false} Skipped(s: string, i: int)
    requires 0 <= i <= |s|
    ensures var j := SkipSpace(s, i); AllSpace(s[i..j]) && Clean(s, j)
    decreases |s| - i
  {
    if i < |s| && IsSpace(s[i]) {
      Skipped(s, i + 1);
      assert s[i..SkipSpace(s, i)] == [s[i]] + s[i + 1..SkipSpace(s, i)];
    }
  }

  lemma SliceJoins(s: string, i: int, j: int, k: int)
    requires 0 <= i <= j <= k <= |s|
    ensures s[i..j] + s[j..k] == s[i..k]
  {
  }

  lemma WordBack(s: string, i: int)
    requires Clean(s, i) && NoNul(s) && GetToken(s, i).kind == 'a'
    ensures var t := GetToken(s, i); var w := Word(s[i..t.eq], s[t.eq..t.next]);
      && t.q == i && WordOk(w) && s[i..t.next] == ShowWord(w) && Clean(s, t.next)
      && (w.gap == [] ==> EndsWord(s, t.next)) && IsWordChar(At(s, i))
  {
    CleanSkip(s, i);
    var t := GetToken(s, i);
    Skipped(s, t.eq);
    SliceJoins(s, i, t.eq, t.next);
  }

  function SignOf(kind: char): Sign
  {
    if kind == '<' then In else if kind == '+' then Append else Out
  }

  lemma SignBack(s: string, i: int)
    requires Clean(s, i) && (At(s, i) == '<' || At(s, i) == '>')
    ensures var t := GetToken(s, i);
      && s[i..t.eq] == ShowSign(SignOf(t.kind)) && AllSpace(s[t.eq..t.next]) && Clean(s, t.next)
  {
    CleanSkip(s, i);
    Skipped(s, GetToken(s, i).eq);
  }

  lemma SymbolBack(s: string, i: int, c: char)
    requires Clean(s, i) && At(s, i) == c && IsSymbol(c) && c != '>'
    ensures var t := GetToken(s, i);
      && 0 <= i < |s| && t.eq == i + 1 <= t.next <= |s| && s[i..t.next] == [c] + s[i + 1..t.next]
      && AllSpace(s[i + 1..t.next]) && Clean(s, t.next)
  {
    CleanSkip(s, i);
    Skipped(s, i + 1);
  }

  // ---- Redirections

  lemma RedirectBack(s: string, i: int) returns (r: Redirect)
    requires Clean(s, i) && NoNul(s) && (At(s, i) == '<' || At(s, i) == '>')
    requires GetToken(s, GetToken(s, i).next).kind == 'a'
    ensures var j := GetToken(s, GetToken(s, i).next).next;
      RedirectOk(r) && s[i..j] == ShowRedirect(r) && Clean(s, j) && (r.file.gap == [] ==> EndsWord(s, j))
  {
    hide GetToken;
    SignBack(s, i);
    var t := GetToken(s, i);
    WordBack(s, t.next);
    var f := GetToken(s, t.next);
    r := Redirect(SignOf(t.kind), s[t.eq..t.next], Word(s[t.next..f.eq], s[f.eq..f.next]));
    SliceJoins(s, i, t.eq, f.next);
    SliceJoins(s, t.eq, t.next, f.next);
  }

  lemma RedirsUnfolds(s: string, i: int)
    requires Clean(s, i)
    ensures var t := GetToken(s, i); var f := GetToken(s, t.next);
      if At(s, i) != '<' && At(s, i) != '>' then ParseRedirs(s, i) == Redirs([], i)
      else
        && (ParseRedirs(s, i).Redirs? <==> f.kind == 'a' && ParseRedirs(s, f.next).Redirs?)
        && (ParseRedirs(s, i).Redirs? ==> i < f.next && ParseRedirs(s, i).pos == ParseRedirs(s, f.next).pos)
  {
    CleanSkip(s, i);
  }

  lemma {:induction false} RedirsBack(s: string, i: int) returns (rs: seq<Redirect>)
    requires Clean(s, i) && NoNul(s) && ParseRedirs(s, i).Redirs?
    ensures var j := ParseRedirs(s, i).pos;
      && 0 <= i <= j <= |s| && s[i..j] == ShowRedirs(rs) && RedirsOk(rs)
      && Clean(s, j) && At(s, j) != '<' && At(s, j) != '>' && (rs != [] && RedirsGap(rs) == [] ==> EndsWord(s, j))
    decreases |s| - i
  {
    hide *;
    InLine(s, i);
    RedirsUnfolds(s, i);
    if At(s, i) != '<' && At(s, i) != '>' {
      rs := [];
      NoneShown();
      return;
    }
    var r := RedirectBack(s, i);
    var k := GetToken(s, GetToken(s, i).next).next;
    var rest := RedirsBack(s, k);
    rs := [r] + rest;
    SliceJoins(s, i, k, ParseRedirs(s, i).pos);
    RedirsCons(r, rest);
  }

  lemma NoneShown()
    ensures ShowRedirs([]) == [] && RedirsOk([])
  {
  }

  lemma RedirsCons(r: Redirect, rest: seq<Redirect>)
    ensures var rs := [r] + rest;
      && ShowRedirs(rs) == ShowRedirect(r) + ShowRedirs(rest) && (RedirectOk(r) && RedirsOk(rest) ==> RedirsOk(rs))
      && RedirsGap(rs) == (if rest == [] then r.file.gap else RedirsGap(rest)) && (rest == [] ==> ShowRedirs(rest) == [])
  {
    var rs := [r] + rest;
    assert rs[0] == r && rs[1..] == rest;
    hide ShowRedirect, RedirectOk;
  }

  // ---- Arguments

  lemma ArgsUnfolds(s: string, i: int, argv: seq<Span>, wraps: seq<Wrap>)
    requires Clean(s, i) && NoNul(s) && ParseArgs(s, i, argv, wraps).Parsed? && !StageEnd(s, i)
    ensures var t := GetToken(s, i); var rs := ParseRedirs(s, t.next);
      && t.kind == 'a' && |argv| + 1 < MAXARGS && rs.Redirs? && i < rs.pos
      && ParseArgs(s, i, argv, wraps) == ParseArgs(s, rs.pos, argv + [Span(t.q, t.eq)], wraps + rs.wraps)
  {
    CleanSkip(s, i);
    hide ParseRedirs;
  }

  lemma {:induction false} ArgsBack(s: string, i: int, argv: seq<Span>, wraps: seq<Wrap>) returns (args: seq<Arg>)
    requires Clean(s, i) && NoNul(s) && ParseArgs(s, i, argv, wraps).Parsed? && |argv| < MAXARGS
    ensures var j := ParseArgs(s, i, argv, wraps).pos;
      && 0 <= i <= j <= |s| && s[i..j] == ShowArgs(args) && ArgsOk(args) && |argv| + |args| < MAXARGS && Clean(s, j)
      && (args != [] ==> IsWordChar(At(s, i)))
    decreases |s| - i
  {
    hide *;
    InLine(s, i);
    if StageEnd(s, i) {
      ArgsDone(s, i, argv, wraps);
      args := [];
      NoArgs(args);
      ArgsNone();
      return;
    }
    ArgsUnfolds(s, i, argv, wraps);
    var t := GetToken(s, i);
    WordBack(s, i);
    var rs := RedirsBack(s, t.next);
    var j := ParseRedirs(s, t.next).pos;
    var rest := ArgsBack(s, j, argv + [Span(t.q, t.eq)], wraps + ParseRedirs(s, t.next).wraps);
    var a := Arg(Word(s[i..t.eq], s[t.eq..t.next]), rs);
    var e := ParseArgs(s, i, argv, wraps).pos;
    SliceJoins(s, i, t.next, e);
    SliceJoins(s, t.next, j, e);
    NotBoth(s, j);
    RedirsCons(Redirect(In, [], Word([], [])), rs);
    NoneShown();
    args := [a] + rest;
    ArgsCons(a, rest);
  }

  lemma ArgsNone()
    ensures ArgsOk([])
  {
  }

  lemma NotBoth(s: string, j: int)
    ensures !(EndsWord(s, j) && IsWordChar(At(s, j)))
  {
  }

  lemma ArgsCons(a: Arg, rest: seq<Arg>)
    requires WordOk(a.word) && RedirsOk(a.redirs) && ArgsOk(rest)
    requires rest != [] ==> (if a.redirs == [] then a.word.gap else RedirsGap(a.redirs)) != []
    ensures ArgsOk([a] + rest) && ShowArgs([a] + rest) == ShowWord(a.word) + (ShowRedirs(a.redirs) + ShowArgs(rest))
  {
    var args := [a] + rest;
    assert args[0] == a && args[1..] == rest;
    hide WordOk, RedirsOk, ShowWord, ShowRedirs;
  }

  // ---- Stages, pipelines, lines

  lemma SimpleBack(s: string, i: int) returns (e: Stage)
    requires Clean(s, i) && NoNul(s) && At(s, i) != '(' && ParseExec(s, i).Parsed?
    ensures var j := ParseExec(s, i).pos; 0 <= i <= j <= |s| && s[i..j] == ShowStage(e) && StageOk(e) && Clean(s, j)
  {
    hide *;
    InLine(s, i);
    SimpleUnfolds(s, i);
    var before := RedirsBack(s, i);
    var rs := ParseRedirs(s, i);
    var args := ArgsBack(s, rs.pos, [], rs.wraps);
    SliceJoins(s, i, rs.pos, ParseExec(s, i).pos);
    NotBoth(s, rs.pos);
    e := Simple(before, args);
    SimpleIs(before, args);
  }

  lemma SimpleUnfolds(s: string, i: int)
    requires Clean(s, i) && At(s, i) != '(' && ParseExec(s, i).Parsed?
    ensures var rs := ParseRedirs(s, i);
      rs.Redirs? && ParseArgs(s, rs.pos, [], rs.wraps).Parsed? && ParseExec(s, i) == ParseArgs(s, rs.pos, [], rs.wraps)
    ensures 0 < MAXARGS
  {
    CleanSkip(s, i);
    hide ParseRedirs, ParseArgs;
  }

  lemma SimpleIs(before: seq<Redirect>, args: seq<Arg>)
    requires RedirsOk(before) && ArgsOk(args) && |args| < MAXARGS
    requires before != [] && args != [] ==> RedirsGap(before) != []
    ensures StageOk(Simple(before, args)) && ShowStage(Simple(before, args)) == ShowRedirs(before) + ShowArgs(args)
  {
  }

  lemma BlockUnfolds(s: string, i: int)
    requires Clean(s, i) && At(s, i) == '(' && ParseExec(s, i).Parsed?
    ensures 0 <= i < GetToken(s, i).next <= |s|
    ensures var line := ParseLine(s, GetToken(s, i).next);
      && line.Parsed?
      && var k := SkipSpace(s, line.pos);
         && At(s, k) == ')' && ParseRedirs(s, GetToken(s, k).next).Redirs?
         && ParseExec(s, i).pos == ParseRedirs(s, GetToken(s, k).next).pos
  {
    CleanSkip(s, i);
    hide ParseRedirs, ParsePipe, Wrapped;
  }

  lemma BlockBack(s: string, i: int) returns (e: Stage)
    requires Clean(s, i) && NoNul(s) && At(s, i) == '(' && ParseExec(s, i).Parsed?
    ensures var j := ParseExec(s, i).pos; 0 <= i <= j <= |s| && s[i..j] == ShowStage(e) && StageOk(e) && Clean(s, j)
    decreases |s| - i, 0
  {
    hide *;
    InLine(s, i);
    BlockUnfolds(s, i);
    IsAParen();
    SymbolBack(s, i, '(');
    var a := GetToken(s, i).next;
    var line := LineBack(s, a);
    var k := ParseLine(s, a).pos;
    CleanSkip(s, k);
    SymbolBack(s, k, ')');
    var b := GetToken(s, k).next;
    var rs := RedirsBack(s, b);
    var j := ParseExec(s, i).pos;
    e := Block(s[i + 1..a], line, s[k + 1..b], rs);
    BlockIs(s, i, a, k, b, j, line, rs);
  }

  lemma IsAParen()
    ensures IsSymbol('(') && IsSymbol(')') && IsSymbol('|') && IsSymbol('&') && IsSymbol(';')
  {
  }

  lemma BlockIs(s: string, i: int, a: int, k: int, b: int, j: int, line: Line, rs: seq<Redirect>)
    requires 0 <= i < a <= k < b <= j <= |s|
    requires s[i..a] == ['('] + s[i + 1..a] && s[a..k] == ShowLine(line) && s[k..b] == [')'] + s[k + 1..b]
    requires s[b..j] == ShowRedirs(rs) && AllSpace(s[i + 1..a]) && LineOk(line) && AllSpace(s[k + 1..b]) && RedirsOk(rs)
    ensures var e := Block(s[i + 1..a], line, s[k + 1..b], rs); StageOk(e) && s[i..j] == ShowStage(e)
  {
    hide ShowLine, ShowRedirs, LineOk, RedirsOk;
    var open, close := s[i + 1..a], s[k + 1..b];
    SliceJoins(s, k, b, j);
    Regroup(')', close, s[b..j]);
    SliceJoins(s, a, k, j);
    SliceJoins(s, i, a, j);
    Regroup('(', open, s[a..j]);
    assert "(" == ['('] && ")" == [')'];
  }

  lemma Regroup(c: char, u: string, v: string)
    ensures [c] + u + v == [c] + (u + v)
  {
  }

  lemma StageBack(s: string, i: int) returns (e: Stage)
    requires Clean(s, i) && NoNul(s) && ParseExec(s, i).Parsed?
    ensures var j := ParseExec(s, i).pos; 0 <= i <= j <= |s| && s[i..j] == ShowStage(e) && StageOk(e) && Clean(s, j)
    decreases |s| - i, 1
  {
    hide *;
    InLine(s, i);
    if At(s, i) == '(' { e := BlockBack(s, i); } else { e := SimpleBack(s, i); }
  }

  lemma PipeUnfolds(s: string, i: int)
    requires Clean(s, i) && ParsePipe(s, i).Parsed?
    ensures var left := ParseExec(s, i);
      && left.Parsed?
      && (Clean(s, left.pos) && At(s, left.pos) != '|' ==> ParsePipe(s, i) == Parsed(left.cmd, left.pos))
      && (Clean(s, left.pos) && At(s, left.pos) == '|' ==>
            var right := ParsePipe(s, GetToken(s, left.pos).next);
            i < GetToken(s, left.pos).next && right.Parsed? && ParsePipe(s, i).pos == right.pos)
  {
    hide ParseExec;
    var left := ParseExec(s, i);
    if left.Parsed? && Clean(s, left.pos) { CleanSkip(s, left.pos); }
  }

  lemma ChainBack(s: string, i: int) returns (c: Chain)
    requires Clean(s, i) && NoNul(s) && ParsePipe(s, i).Parsed?
    ensures var j := ParsePipe(s, i).pos; 0 <= i <= j <= |s| && s[i..j] == ShowChain(c) && ChainOk(c) && Clean(s, j)
    decreases |s| - i, 2
  {
    hide *;
    InLine(s, i);
    PipeUnfolds(s, i);
    var e := StageBack(s, i);
    var j := ParseExec(s, i).pos;
    if At(s, j) != '|' {
      c := Alone(e);
      AloneOk(e);
      return;
    }
    IsAParen();
    SymbolBack(s, j, '|');
    var k := GetToken(s, j).next;
    var rest := ChainBack(s, k);
    c := Piped(e, s[j + 1..k], rest);
    var end := ParsePipe(s, i).pos;
    SliceJoins(s, i, j, end);
    SliceJoins(s, j, k, end);
    PipedIs(e, s[j + 1..k], rest, s[j..end]);
  }

  lemma AloneOk(e: Stage)
    requires StageOk(e)
    ensures ChainOk(Alone(e)) && ShowChain(Alone(e)) == ShowStage(e)
  {
  }

  lemma PipedIs(e: Stage, gap: string, rest: Chain, tail: string)
    requires StageOk(e) && AllSpace(gap) && ChainOk(rest) && tail == ['|'] + gap + ShowChain(rest)
    ensures ChainOk(Piped(e, gap, rest)) && ShowChain(Piped(e, gap, rest)) == ShowStage(e) + tail
  {
    assert tail == "|" + (gap + ShowChain(rest));
  }

  lemma {:induction false} BacksBack(s: string, c: Cmd, i: int) returns (gs: seq<string>)
    requires Clean(s, i)
    ensures var j := ParseBacks(s, c, i).pos;
      && 0 <= i <= j <= |s| && s[i..j] == ShowBacks(gs) && Clean(s, j) && At(s, j) != '&'
      && forall k :: 0 <= k < |gs| ==> AllSpace(gs[k])
    decreases |s| - i
  {
    hide *;
    InLine(s, i);
    if At(s, i) != '&' {
      BacksDone(s, c, i);
      gs := [];
      BackedUnfold(c, gs);
      return;
    }
    IsAParen();
    SymbolBack(s, i, '&');
    BacksTurn(s, c, i);
    var k := GetToken(s, i).next;
    var rest := BacksBack(s, Back(c), k);
    gs := [s[i + 1..k]] + rest;
    SliceJoins(s, i, k, ParseBacks(s, c, i).pos);
    BacksCons(s[i + 1..k], rest);
  }

  lemma BacksCons(g: string, rest: seq<string>)
    ensures ShowBacks([g] + rest) == ['&'] + g + ShowBacks(rest)
  {
    var gs := [g] + rest;
    assert gs[0] == g && gs[1..] == rest;
    assert "&" + (g + ShowBacks(rest)) == ['&'] + g + ShowBacks(rest);
  }

  lemma LineUnfolds(s: string, i: int)
    requires Clean(s, i) && ParseLine(s, i).Parsed?
    ensures var first := ParsePipe(s, i);
      && first.Parsed?
      && var b := ParseBacks(s, first.cmd, first.pos);
         && (Clean(s, b.pos) && At(s, b.pos) != ';' ==> ParseLine(s, i) == Parsed(b.cmd, b.pos))
         && (Clean(s, b.pos) && At(s, b.pos) == ';' ==>
               var rest := ParseLine(s, GetToken(s, b.pos).next);
               i < GetToken(s, b.pos).next && rest.Parsed? && ParseLine(s, i).pos == rest.pos)
  {
    hide ParsePipe, ParseBacks;
    var first := ParsePipe(s, i);
    if first.Parsed? {
      var b := ParseBacks(s, first.cmd, first.pos);
      if Clean(s, b.pos) { CleanSkip(s, b.pos); }
    }
  }

  lemma LineBack(s: string, i: int) returns (l: Line)
    requires Clean(s, i) && NoNul(s) && ParseLine(s, i).Parsed?
    ensures var j := ParseLine(s, i).pos; 0 <= i <= j <= |s| && s[i..j] == ShowLine(l) && LineOk(l) && Clean(s, j)
    decreases |s| - i, 3
  {
    hide *;
    InLine(s, i);
    LineUnfolds(s, i);
    var c := ChainBack(s, i);
    var first := ParsePipe(s, i);
    var gs := BacksBack(s, first.cmd, first.pos);
    var b := ParseBacks(s, first.cmd, first.pos).pos;
    var end := ParseLine(s, i).pos;
    var m: More;
    if At(s, b) != ';' {
      m := End;
    } else {
      IsAParen();
      SymbolBack(s, b, ';');
      var k := GetToken(s, b).next;
      var rest := LineBack(s, k);
      SliceJoins(s, b, k, end);
      m := Then(s[b + 1..k], rest);
    }
    MoreIs(m);
    SliceJoins(s, i, first.pos, end);
    SliceJoins(s, first.pos, b, end);
    l := Line(c, gs, m);
    LineIs(c, gs, m);
  }

  lemma MoreIs(m: More)
    ensures m.End? ==> ShowMore(m) == []
    ensures m.Then? ==> ShowMore(m) == [';'] + m.gap + ShowLine(m.line)
  {
    if m.Then? { assert ";" + (m.gap + ShowLine(m.line)) == [';'] + m.gap + ShowLine(m.line); }
  }

  lemma LineIs(c: Chain, gs: seq<string>, m: More)
    requires ChainOk(c) && (forall k :: 0 <= k < |gs| ==> AllSpace(gs[k])) && (m.Then? ==> AllSpace(m.gap) && LineOk(m.line))
    ensures LineOk(Line(c, gs, m)) && ShowLine(Line(c, gs, m)) == ShowChain(c) + (ShowBacks(gs) + ShowMore(m))
  {
  }

  // ---- The language of the parser

  ghost predicate IsLine(s: string)
  {
    exists lead, l :: AllSpace(lead) && LineOk(l) && s == lead + ShowLine(l)
  }

  /** parsecmd accepts exactly the well-formed lines. */
  lemma AcceptsExactly(s: string)
    requires NoNul(s)
    ensures ParseCmd(s).Parsed? <==> IsLine(s)
  {
    if ParseCmd(s).Parsed? {
      var i := SkipSpace(s, 0);
      Skipped(s, 0);
      LineSkips(s, 0);
      var l := LineBack(s, i);
      CleanSkip(s, ParseLine(s, i).pos);
      hide ParseLine, ShowLine, LineOk;
      assert s == s[..i] + s[i..|s|];
      assert s[0..i] == s[..i];
      assert AllSpace(s[..i]) && LineOk(l) && s == s[..i] + ShowLine(l);
    }
    if IsLine(s) {
      var lead, l :| AllSpace(lead) && LineOk(l) && s == lead + ShowLine(l);
      AcceptsLines(lead, l);
    }
  }

  /** A line stands for one command only, however it is divided. */
  lemma Unambiguous(lead1: string, l1: Line, lead2: string, l2: Line)
    requires AllSpace(lead1) && LineOk(l1) && AllSpace(lead2) && LineOk(l2) && lead1 + ShowLine(l1) == lead2 + ShowLine(l2)
    ensures LineTree(l1) == LineTree(l2)
  {
    AcceptsLines(lead1, l1);
    AcceptsLines(lead2, l2);
    hide ParseCmd, ShowLine, LineTree, Meaning;
  }
}
