/** The loops of sh.c's parser, against ShellGrammar: methods return the moved cursor. */
module ShellParser {
  import opened ShellGrammar
  import opened ShellTokens

  method Skip(s: string, i: int) returns (p: int)
    requires 0 <= i <= |s|
    ensures p == SkipSpace(s, i)
  {
    p := i;
    while p < |s| && IsSpace(s[p])
      invariant i <= p <= |s| && SkipSpace(s, i) == SkipSpace(s, p)
    {
      p := p + 1;
    }
  }

  method Gettoken(s: string, i: int) returns (t: Token)
    requires 0 <= i <= |s|
    ensures t == GetToken(s, i)
  {
    var q := Skip(s, i);
    var kind := At(s, q);
    var p := q;
    if kind == NUL {
    } else if kind == '|' || kind == '(' || kind == ')' || kind == ';' || kind == '&' || kind == '<' {
      p := p + 1;
    } else if kind == '>' {
      p := p + 1;
      if At(s, p) == '>' {
        kind := '+';
        p := p + 1;
      }
    } else {
      kind := 'a';
      while p < |s| && !IsSpace(s[p]) && !IsSymbol(s[p])
        invariant q <= p <= |s| && SkipWord(s, q) == SkipWord(s, p)
      {
        p := p + 1;
      }
    }
    var next := Skip(s, p);
    return Token(kind, q, p, next);
  }

  /** The cursor past the spaces, and whether one of toks is there. */
  method Peek(s: string, i: int, toks: string) returns (p: int, hit: bool)
    requires 0 <= i <= |s|
    ensures p == SkipSpace(s, i) && hit == (At(s, p) != NUL && At(s, p) in toks)
  {
    p := Skip(s, i);
    hit := At(s, p) != NUL && At(s, p) in toks;
  }

  /** parseredirs: the command with the redirections at the cursor around it. */
  method Parseredirs(s: string, cmd: Cmd, i: int) returns (r: Parsed, wraps: seq<Wrap>)
    requires 0 <= i <= |s|
    ensures var rs := ParseRedirs(s, i);
      if rs.BadRedir? then r == Failed else wraps == rs.wraps && r == Parsed(Wrapped(cmd, rs.wraps), rs.pos)
  {
    var c := cmd;
    var p, hit := Peek(s, i, "<>");
    wraps := [];
    RedirsStart(s, cmd, i);
    while hit
      invariant 0 <= p <= |s| && p == SkipSpace(s, p) && hit == (At(s, p) == '<' || At(s, p) == '>')
      invariant c == Wrapped(cmd, wraps)
      invariant Joined(wraps, ParseRedirs(s, p)) == ParseRedirs(s, i)
      decreases |s| - p
    {
      var t := Gettoken(s, p);
      var f := Gettoken(s, t.next);
      if f.kind != 'a' {
        return Failed, wraps;
      }
      var w := if t.kind == '<' then Wrap(Span(f.q, f.eq), O_RDONLY, 0) else Wrap(Span(f.q, f.eq), O_WRONLY_CREATE, 1);
      RedirsTurn(s, p, wraps, w);
      WrapOneMore(cmd, wraps, w);
      c := Redir(c, w);
      wraps := wraps + [w];
      p, hit := Peek(s, f.next, "<>");
    }
    return Parsed(c, p), wraps;
  }

  function Joined(wraps: seq<Wrap>, r: Redirs): Redirs
  {
    if r.BadRedir? then r else Redirs(wraps + r.wraps, r.pos)
  }

  lemma SkipTwice(s: string, i: int)
    requires 0 <= i <= |s|
    ensures SkipSpace(s, SkipSpace(s, i)) == SkipSpace(s, i)
    ensures ParseRedirs(s, SkipSpace(s, i)) == ParseRedirs(s, i)
  {
  }

  lemma RedirsStart(s: string, cmd: Cmd, i: int)
    requires 0 <= i <= |s|
    ensures SkipSpace(s, SkipSpace(s, i)) == SkipSpace(s, i)
    ensures Joined([], ParseRedirs(s, SkipSpace(s, i))) == ParseRedirs(s, i)
  {
    SkipTwice(s, i);
    var r := ParseRedirs(s, i);
    if r.Redirs? { assert [] + r.wraps == r.wraps; }
  }

  lemma RedirsTurn(s: string, p: int, wraps: seq<Wrap>, w: Wrap)
    requires 0 <= p <= |s| && p == SkipSpace(s, p) && (At(s, p) == '<' || At(s, p) == '>')
    requires var f := GetToken(s, GetToken(s, p).next);
      f.kind == 'a' && w == Direction(GetToken(s, p).kind, Span(f.q, f.eq))
    ensures var f := GetToken(s, GetToken(s, p).next); var p' := SkipSpace(s, f.next);
      && p' == SkipSpace(s, p') && p < p'
      && Joined(wraps + [w], ParseRedirs(s, p')) == Joined(wraps, ParseRedirs(s, p))
  {
    var f := GetToken(s, GetToken(s, p).next);
    SkipTwice(s, f.next);
    var rest := ParseRedirs(s, f.next);
    hide GetToken;
    if rest.Redirs? {
      assert wraps + [w] + rest.wraps == wraps + ([w] + rest.wraps);
    }
  }

  lemma {:induction false} WrapOneMore(cmd: Cmd, wraps: seq<Wrap>, w: Wrap)
    ensures Wrapped(cmd, wraps + [w]) == Redir(Wrapped(cmd, wraps), w)
    decreases |wraps|
  {
    if wraps == [] {
      assert wraps + [w] == [w];
      assert Wrapped(Redir(cmd, w), []) == Redir(cmd, w);
    } else {
      assert (wraps + [w])[1..] == wraps[1..] + [w];
      WrapOneMore(Redir(cmd, wraps[0]), wraps[1..], w);
    }
  }

  /** parseexec: a block, or words and redirections in any order. */
  method Parseexec(s: string, i: int) returns (r: Parsed)
    requires 0 <= i <= |s|
    ensures r == ParseExec(s, i)
    decreases |s| - i, 1
  {
    var p, hit := Peek(s, i, "(");
    if hit {
      r := Parseblock(s, p);
      return;
    }
    var ret, wraps := Parseredirs(s, Exec([]), p);
    if ret.Failed? {
      return Failed;
    }
    r := Parseargs(s, ret.pos, wraps);
  }

  /** Its loop, with the redirections before the first word. */
  method Parseargs(s: string, i: int, before: seq<Wrap>) returns (r: Parsed)
    requires 0 <= i <= |s|
    ensures r == ParseArgs(s, i, [], before)
  {
    hide ParseArgs, GetToken, ParseRedirs, SkipSpace, Wrapped;
    var argv: seq<Span> := [];
    var wraps := before;
    ArgsSkip(s, i, argv, wraps);
    var p, hit := Peek(s, i, "|)&;");
    while !hit
      invariant 0 <= p <= |s| && p == SkipSpace(s, p) && hit == EndsArgs(At(s, p))
      invariant ParseArgs(s, i, [], before) == ParseArgs(s, p, argv, wraps)
      decreases |s| - p
    {
      ArgsUnfold(s, p, argv, wraps);
      var t := Gettoken(s, p);
      if t.kind == NUL {
        return Parsed(Wrapped(Exec(argv), wraps), t.next);
      }
      if t.kind != 'a' {
        return Failed;
      }
      argv := argv + [Span(t.q, t.eq)];
      if |argv| >= MAXARGS {
        return Failed;
      }
      var ret, more := Parseredirs(s, Exec(argv), t.next);
      if ret.Failed? {
        return Failed;
      }
      wraps := wraps + more;
      ArgsSkip(s, ret.pos, argv, wraps);
      p, hit := Peek(s, ret.pos, "|)&;");
    }
    ArgsUnfold(s, p, argv, wraps);
    return Parsed(Wrapped(Exec(argv), wraps), p);
  }

  lemma ArgsUnfold(s: string, p: int, argv: seq<Span>, wraps: seq<Wrap>)
    requires 0 <= p <= |s| && p == SkipSpace(s, p)
    ensures var t := GetToken(s, p);
      ParseArgs(s, p, argv, wraps) ==
      if EndsArgs(At(s, p)) then Parsed(Wrapped(Exec(argv), wraps), p)
      else if t.kind == NUL then Parsed(Wrapped(Exec(argv), wraps), t.next)
      else if t.kind != 'a' || |argv| + 1 >= MAXARGS then Failed
      else
        var rs := ParseRedirs(s, t.next);
        if rs.BadRedir? then Failed else ParseArgs(s, rs.pos, argv + [Span(t.q, t.eq)], wraps + rs.wraps)
    ensures var t := GetToken(s, p); t.kind != NUL ==> p < t.next
  {
  }

  lemma ArgsSkip(s: string, i: int, argv: seq<Span>, wraps: seq<Wrap>)
    requires 0 <= i <= |s|
    ensures SkipSpace(s, SkipSpace(s, i)) == SkipSpace(s, i)
    ensures ParseArgs(s, SkipSpace(s, i), argv, wraps) == ParseArgs(s, i, argv, wraps)
  {
  }

  method Parseblock(s: string, i: int) returns (r: Parsed)
    requires 0 <= i < |s| && s[i] == '('
    ensures r == ParseBlock(s, i)
    decreases |s| - i, 0
  {
    var t := Gettoken(s, i);
    var line := Parseline(s, t.next);
    if line.Failed? {
      return Failed;
    }
    var p, hit := Peek(s, line.pos, ")");
    if !hit {
      return Failed;
    }
    t := Gettoken(s, p);
    var wraps;
    r, wraps := Parseredirs(s, line.cmd, t.next);
  }

  method Parsepipe(s: string, i: int) returns (r: Parsed)
    requires 0 <= i <= |s|
    ensures r == ParsePipe(s, i)
    decreases |s| - i, 2
  {
    var left := Parseexec(s, i);
    if left.Failed? {
      return Failed;
    }
    var p, hit := Peek(s, left.pos, "|");
    if !hit {
      return Parsed(left.cmd, p);
    }
    var t := Gettoken(s, p);
    var right := Parsepipe(s, t.next);
    if right.Failed? {
      return Failed;
    }
    return Parsed(Pipe(left.cmd, right.cmd), right.pos);
  }

  method Parseline(s: string, i: int) returns (r: Parsed)
    requires 0 <= i <= |s|
    ensures r == ParseLine(s, i)
    decreases |s| - i, 3
  {
    var first := Parsepipe(s, i);
    if first.Failed? {
      return Failed;
    }
    var cmd := first.cmd;
    var p, hit := Peek(s, first.pos, "&");
    BacksSkip(s, cmd, first.pos);
    while hit
      invariant i <= p <= |s| && p == SkipSpace(s, p) && hit == (At(s, p) == '&')
      invariant ParseBacks(s, first.cmd, first.pos) == ParseBacks(s, cmd, p)
      decreases |s| - p
    {
      var t := Gettoken(s, p);
      cmd := Back(cmd);
      BacksSkip(s, cmd, t.next);
      p, hit := Peek(s, t.next, "&");
    }
    p, hit := Peek(s, p, ";");
    if !hit {
      return Parsed(cmd, p);
    }
    var t := Gettoken(s, p);
    var rest := Parseline(s, t.next);
    if rest.Failed? {
      return Failed;
    }
    return Parsed(List(cmd, rest.cmd), rest.pos);
  }

  lemma BacksSkip(s: string, cmd: Cmd, i: int)
    requires 0 <= i <= |s|
    ensures SkipSpace(s, SkipSpace(s, i)) == SkipSpace(s, i)
    ensures ParseBacks(s, cmd, SkipSpace(s, i)) == ParseBacks(s, cmd, i)
  {
  }

  /** parsecmd on a line in a buffer with its final NUL; Failed stands for the panics. */
  method Parsecmd(buf: array<char>) returns (r: Parsed)
    requires buf.Length > 0 && buf[buf.Length - 1] == NUL
    modifies buf
    ensures r == ParseCmd(old(buf[..buf.Length - 1]))
    ensures buf[..] == if r.Parsed? then Terminate(old(buf[..]), r.cmd) else old(buf[..])
  {
    var s := buf[..buf.Length - 1];
    var line := Parseline(s, 0);
    if line.Failed? {
      return Failed;
    }
    var p, _ := Peek(s, line.pos, "");
    if p != |s| {
      return Failed;
    }
    assert buf[..buf.Length] == buf[..];
    Nulterminate(buf, line.cmd);
    return Parsed(line.cmd, |s|);
  }

  /** nulterminate: in place, in the order of the tree. */
  method Nulterminate(buf: array<char>, c: Cmd)
    modifies buf
    ensures buf[..] == Terminate(old(buf[..]), c)
    decreases c
  {
    match c {
      case Exec(argv) =>
        ghost var b := buf[..];
        var k := 0;
        assert argv[0..] == argv;
        while k < |argv|
          invariant 0 <= k <= |argv| && EndArgs(b, argv) == EndArgs(buf[..], argv[k..])
        {
          assert argv[k..][0] == argv[k] && argv[k..][1..] == argv[k + 1..];
          SetNul(buf, argv[k].eq);
          k := k + 1;
        }
      case Redir(d, w) =>
        Nulterminate(buf, d);
        SetNul(buf, w.file.eq);
      case Pipe(l, r) =>
        Nulterminate(buf, l);
        Nulterminate(buf, r);
      case List(l, r) =>
        Nulterminate(buf, l);
        Nulterminate(buf, r);
      case Back(d) =>
        Nulterminate(buf, d);
    }
  }

  method SetNul(buf: array<char>, e: int)
    modifies buf
    ensures buf[..] == EndAt(old(buf[..]), e)
  {
    if 0 <= e < buf.Length {
      buf[e] := NUL;
    }
  }
}
