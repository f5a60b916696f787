/** nulterminate in sh.c: after it, every argument and file name reads as exactly its token. */
module ShellTokens {
  import opened ShellGrammar

  predicate NoNul(s: string)
  {
    forall x :: 0 <= x < |s| ==> s[x] != NUL
  }

  /** A span that is a whole word of the line. */
  predicate WordSpan(s: string, a: Span)
  {
    && 0 <= a.q < a.eq <= |s|
    && (forall x :: a.q <= x < a.eq ==> IsWordChar(s[x]))
    && !IsWordChar(At(s, a.eq))
  }

  predicate AllWords(s: string, argv: seq<Span>)
  {
    forall k :: 0 <= k < |argv| ==> WordSpan(s, argv[k])
  }

  predicate AllWraps(s: string, wraps: seq<Wrap>)
  {
    forall k :: 0 <= k < |wraps| ==> WordSpan(s, wraps[k].file)
  }

  predicate WordsOnly(s: string, c: Cmd)
  {
    match c
    case Exec(argv) => AllWords(s, argv)
    case Redir(d, w) => WordsOnly(s, d) && WordSpan(s, w.file)
    case Pipe(l, r) => WordsOnly(s, l) && WordsOnly(s, r)
    case List(l, r) => WordsOnly(s, l) && WordsOnly(s, r)
    case Back(d) => WordsOnly(s, d)
  }

  // ---- Everything the parser puts in a tree is a word

  lemma WordSpans(s: string, i: int)
    requires NoNul(s) && 0 <= i <= |s| && GetToken(s, i).kind == 'a'
    ensures var t := GetToken(s, i); WordSpan(s, Span(t.q, t.eq))
  {
    var q := SkipSpace(s, i);
    assert q < |s|;
  }

  lemma {:induction false} RedirWords(s: string, i: int)
    requires NoNul(s) && 0 <= i <= |s| && ParseRedirs(s, i).Redirs?
    ensures AllWraps(s, ParseRedirs(s, i).wraps)
    decreases |s| - i
  {
    var p := SkipSpace(s, i);
    if At(s, p) == '<' || At(s, p) == '>' {
      var t := GetToken(s, p);
      var f := GetToken(s, t.next);
      WordSpans(s, t.next);
      RedirWords(s, f.next);
      hide GetToken, WordSpan;
    }
  }

  lemma {:induction false} WrappedWords(s: string, c: Cmd, wraps: seq<Wrap>)
    requires WordsOnly(s, c) && AllWraps(s, wraps)
    ensures WordsOnly(s, Wrapped(c, wraps))
    decreases |wraps|
  {
    if wraps != [] { WrappedWords(s, Redir(c, wraps[0]), wraps[1..]); }
  }

  lemma {:induction false} ArgWords(s: string, i: int, argv: seq<Span>, wraps: seq<Wrap>)
    requires NoNul(s) && 0 <= i <= |s| && AllWords(s, argv) && AllWraps(s, wraps)
    requires ParseArgs(s, i, argv, wraps).Parsed?
    ensures WordsOnly(s, ParseArgs(s, i, argv, wraps).cmd)
    decreases |s| - i
  {
    var p := SkipSpace(s, i);
    var t := GetToken(s, p);
    if EndsArgs(At(s, p)) || t.kind == NUL {
      WrappedWords(s, Exec(argv), wraps);
    } else {
      WordSpans(s, p);
      RedirWords(s, t.next);
      hide GetToken, WordSpan;
      var rs := ParseRedirs(s, t.next);
      ArgWords(s, rs.pos, argv + [Span(t.q, t.eq)], wraps + rs.wraps);
    }
  }

  lemma {:induction false} ExecWords(s: string, i: int)
    requires NoNul(s) && 0 <= i <= |s| && ParseExec(s, i).Parsed?
    ensures WordsOnly(s, ParseExec(s, i).cmd)
    decreases |s| - i, 1
  {
    var p := SkipSpace(s, i);
    if At(s, p) == '(' {
      BlockWords(s, p);
    } else {
      RedirWords(s, p);
      var rs := ParseRedirs(s, p);
      ArgWords(s, rs.pos, [], rs.wraps);
    }
  }

  lemma {:induction false} BlockWords(s: string, i: int)
    requires NoNul(s) && 0 <= i < |s| && s[i] == '(' && ParseBlock(s, i).Parsed?
    ensures WordsOnly(s, ParseBlock(s, i).cmd)
    decreases |s| - i, 0
  {
    var line := ParseLine(s, GetToken(s, i).next);
    LineWords(s, GetToken(s, i).next);
    var p := GetToken(s, SkipSpace(s, line.pos)).next;
    RedirWords(s, p);
    WrappedWords(s, line.cmd, ParseRedirs(s, p).wraps);
  }

  lemma {:induction false} PipeWords(s: string, i: int)
    requires NoNul(s) && 0 <= i <= |s| && ParsePipe(s, i).Parsed?
    ensures WordsOnly(s, ParsePipe(s, i).cmd)
    decreases |s| - i, 2
  {
    ExecWords(s, i);
    var p := SkipSpace(s, ParseExec(s, i).pos);
    if At(s, p) == '|' { PipeWords(s, GetToken(s, p).next); }
  }

  lemma {:induction false} BackWords(s: string, c: Cmd, i: int)
    requires 0 <= i <= |s| && WordsOnly(s, c)
    ensures WordsOnly(s, ParseBacks(s, c, i).cmd)
    decreases |s| - i
  {
    var p := SkipSpace(s, i);
    if At(s, p) == '&' { BackWords(s, Back(c), GetToken(s, p).next); }
  }

  /** In every parsed line each argument and file name is a whole word. */
  lemma {:induction false} LineWords(s: string, i: int)
    requires NoNul(s) && 0 <= i <= |s| && ParseLine(s, i).Parsed?
    ensures WordsOnly(s, ParseLine(s, i).cmd)
    decreases |s| - i, 3
  {
    var first := ParsePipe(s, i);
    PipeWords(s, i);
    BackWords(s, first.cmd, first.pos);
    var p := SkipSpace(s, ParseBacks(s, first.cmd, first.pos).pos);
    if At(s, p) == ';' { LineWords(s, GetToken(s, p).next); }
  }

  // ---- nulterminate

  function EndArgs(buf: seq<char>, argv: seq<Span>): (r: seq<char>)
    ensures |r| == |buf|
    decreases |argv|
  {
    if argv == [] then buf else EndArgs(EndAt(buf, argv[0].eq), argv[1..])
  }

  function EndAt(buf: seq<char>, e: int): (r: seq<char>)
    ensures |r| == |buf|
  {
    if 0 <= e < |buf| then buf[e := NUL] else buf
  }

  function Terminate(buf: seq<char>, c: Cmd): (r: seq<char>)
    ensures |r| == |buf|
    decreases c
  {
    match c
    case Exec(argv) => EndArgs(buf, argv)
    case Redir(d, w) => EndAt(Terminate(buf, d), w.file.eq)
    case Pipe(l, r) => Terminate(Terminate(buf, l), r)
    case List(l, r) => Terminate(Terminate(buf, l), r)
    case Back(d) => Terminate(buf, d)
  }

  /** a is an argument or a file name of c. */
  ghost predicate TokenOf(c: Cmd, a: Span)
  {
    match c
    case Exec(argv) => a in argv
    case Redir(d, w) => TokenOf(d, a) || a == w.file
    case Pipe(l, r) => TokenOf(l, a) || TokenOf(r, a)
    case List(l, r) => TokenOf(l, a) || TokenOf(r, a)
    case Back(d) => TokenOf(d, a)
  }

  /** The C string at position q. */
  function CString(buf: seq<char>, q: int): string
    decreases |buf| - q
  {
    if 0 <= q < |buf| && buf[q] != NUL then [buf[q]] + CString(buf, q + 1) else ""
  }

  /** r is buf with some word-free places set to NUL. */
  ghost predicate Ended(s: string, buf: seq<char>, r: seq<char>)
  {
    |r| == |buf| && forall x :: 0 <= x < |buf| ==> r[x] == buf[x] || (r[x] == NUL && !IsWordChar(At(s, x)))
  }

  lemma {:induction false} EndArgsIs(s: string, buf: seq<char>, argv: seq<Span>)
    requires AllWords(s, argv) && |buf| == |s| + 1
    ensures Ended(s, buf, EndArgs(buf, argv))
    ensures forall k :: 0 <= k < |argv| ==> EndArgs(buf, argv)[argv[k].eq] == NUL
    decreases |argv|
  {
    if argv != [] {
      assert WordSpan(s, argv[0]);
      EndArgsIs(s, EndAt(buf, argv[0].eq), argv[1..]);
    }
  }

  lemma {:induction false} TerminateIs(s: string, buf: seq<char>, c: Cmd)
    requires WordsOnly(s, c) && |buf| == |s| + 1
    ensures Ended(s, buf, Terminate(buf, c))
    ensures forall a :: TokenOf(c, a) ==> WordSpan(s, a) && Terminate(buf, c)[a.eq] == NUL
    decreases c
  {
    match c {
      case Exec(argv) => EndArgsIs(s, buf, argv);
      case Redir(d, w) => TerminateIs(s, buf, d);
      case Pipe(l, r) =>
        TerminateIs(s, buf, l);
        TerminateIs(s, Terminate(buf, l), r);
      case List(l, r) =>
        TerminateIs(s, buf, l);
        TerminateIs(s, Terminate(buf, l), r);
      case Back(d) => TerminateIs(s, buf, d);
    }
  }

  lemma {:induction false} ReadsWord(buf: seq<char>, q: int, e: int)
    requires 0 <= q <= e < |buf| && buf[e] == NUL && forall x :: q <= x < e ==> buf[x] != NUL
    ensures CString(buf, q) == buf[q..e]
    decreases e - q
  {
    if q < e {
      ReadsWord(buf, q + 1, e);
      assert buf[q..e] == [buf[q]] + buf[q + 1..e];
    }
  }

  /** After parsecmd every argument and every file name, read as a C string, is exactly its token's text. */
  lemma TokensReadBack(s: string, a: Span)
    requires NoNul(s) && ParseCmd(s).Parsed? && TokenOf(ParseCmd(s).cmd, a)
    ensures 0 <= a.q < a.eq <= |s|
    ensures CString(Terminate(s + [NUL], ParseCmd(s).cmd), a.q) == s[a.q..a.eq]
  {
    var c := ParseCmd(s).cmd;
    var buf := s + [NUL];
    LineWords(s, 0);
    TerminateIs(s, buf, c);
    var r := Terminate(buf, c);
    hide ParseCmd, ParseLine, Terminate, WordsOnly, TokenOf;
    assert WordSpan(s, a) && Ended(s, buf, r);
    forall x | a.q <= x < a.eq ensures r[x] == s[x] && r[x] != NUL { assert IsWordChar(s[x]); }
    ReadsWord(r, a.q, a.eq);
    assert r[a.q..a.eq] == s[a.q..a.eq];
  }
}
