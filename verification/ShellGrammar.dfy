/** The shell's parser (sh.c) as functions on a command line s without its final NUL; positions stand for
    pointers into the line.
 */
module ShellGrammar {

  const NUL: char := '\0'
  const MAXARGS := 10
  const O_RDONLY := 0
  const O_WRONLY_CREATE := 0x201

  // ---- Tokens

  function At(s: string, i: int): char
  {
    if 0 <= i < |s| then s[i] else NUL
  }

  predicate IsSpace(c: char)
  {
    c == ' ' || c == '\t' || c == '\r' || c == '\n' || c == '\U{000B}'
  }

  predicate IsSymbol(c: char)
  {
    c == '<' || c == '|' || c == '>' || c == '&' || c == ';' || c == '(' || c == ')'
  }

  predicate IsWordChar(c: char)
  {
    c != NUL && !IsSpace(c) && !IsSymbol(c)
  }

  function SkipSpace(s: string, i: int): (r: int)
    requires 0 <= i <= |s|
    ensures i <= r <= |s| && !IsSpace(At(s, r))
    decreases |s| - i
  {
    if i < |s| && IsSpace(s[i]) then SkipSpace(s, i + 1) else i
  }

  function SkipWord(s: string, i: int): (r: int)
    requires 0 <= i <= |s|
    ensures i <= r <= |s| && (r == |s| || IsSpace(s[r]) || IsSymbol(s[r]))
    ensures forall x :: i <= x < r ==> !IsSpace(s[x]) && !IsSymbol(s[x])
    decreases |s| - i
  {
    if i < |s| && !IsSpace(s[i]) && !IsSymbol(s[i]) then SkipWord(s, i + 1) else i
  }

  /** What gettoken returns: the kind of token, its ends, and where the next one may start. */
  datatype Token = Token(kind: char, q: int, eq: int, next: int)

  function GetToken(s: string, i: int): (t: Token)
    requires 0 <= i <= |s|
    ensures i <= t.q <= t.eq <= t.next <= |s|
    ensures t.kind == NUL || t.q < t.eq
  {
    var q := SkipSpace(s, i);
    var c := At(s, q);
    var (kind, eq) :=
      if c == NUL then (NUL, q)
      else if c == '>' then (if At(s, q + 1) == '>' then ('+', q + 2) else ('>', q + 1))
      else if IsSymbol(c) then (c, q + 1)
      else ('a', SkipWord(s, q));
    Token(kind, q, eq, SkipSpace(s, eq))
  }

  // ---- Command trees

  datatype Span = Span(q: int, eq: int)

  datatype Wrap = Wrap(file: Span, mode: int, fd: int)

  datatype Cmd =
    | Exec(argv: seq<Span>)
    | Redir(cmd: Cmd, wrap: Wrap)
    | Pipe(left: Cmd, right: Cmd)
    | List(left: Cmd, right: Cmd)
    | Back(cmd: Cmd)

  /** cmd with redirections around it, the first one innermost. */
  function Wrapped(cmd: Cmd, wraps: seq<Wrap>): Cmd
    decreases |wraps|
  {
    if wraps == [] then cmd else Wrapped(Redir(cmd, wraps[0]), wraps[1..])
  }

  // ---- The parser

  datatype Redirs = Redirs(wraps: seq<Wrap>, pos: int) | BadRedir

  datatype Parsed = Parsed(cmd: Cmd, pos: int) | Failed

  function Direction(kind: char, file: Span): Wrap
  {
    if kind == '<' then Wrap(file, O_RDONLY, 0) else Wrap(file, O_WRONLY_CREATE, 1)
  }

  function ParseRedirs(s: string, i: int): (r: Redirs)
    requires 0 <= i <= |s|
    ensures r.Redirs? ==> i <= r.pos <= |s|
    decreases |s| - i
  {
    var p := SkipSpace(s, i);
    if At(s, p) == '<' || At(s, p) == '>' then
      var t := GetToken(s, p);
      var f := GetToken(s, t.next);
      if f.kind != 'a' then BadRedir
      else
        var rest := ParseRedirs(s, f.next);
        if rest.BadRedir? then BadRedir else Redirs([Direction(t.kind, Span(f.q, f.eq))] + rest.wraps, rest.pos)
    else Redirs([], p)
  }

  predicate EndsArgs(c: char)
  {
    c == '|' || c == ')' || c == '&' || c == ';'
  }

  /** The loop of parseexec: words and redirections so far, from position i on. */
  function ParseArgs(s: string, i: int, argv: seq<Span>, wraps: seq<Wrap>): (r: Parsed)
    requires 0 <= i <= |s|
    ensures r.Parsed? ==> i <= r.pos <= |s|
    decreases |s| - i
  {
    var p := SkipSpace(s, i);
    var t := GetToken(s, p);
    if EndsArgs(At(s, p)) then Parsed(Wrapped(Exec(argv), wraps), p)
    else if t.kind == NUL then Parsed(Wrapped(Exec(argv), wraps), t.next)
    else if t.kind != 'a' || |argv| + 1 >= MAXARGS then Failed
    else
      var rs := ParseRedirs(s, t.next);
      if rs.BadRedir? then Failed else ParseArgs(s, rs.pos, argv + [Span(t.q, t.eq)], wraps + rs.wraps)
  }

  function ParseExec(s: string, i: int): (r: Parsed)
    requires 0 <= i <= |s|
    ensures r.Parsed? ==> i <= r.pos <= |s|
    decreases |s| - i, 1
  {
    var p := SkipSpace(s, i);
    if At(s, p) == '(' then ParseBlock(s, p)
    else
      var rs := ParseRedirs(s, p);
      if rs.BadRedir? then Failed else ParseArgs(s, rs.pos, [], rs.wraps)
  }

  function ParseBlock(s: string, i: int): (r: Parsed)
    requires 0 <= i < |s| && s[i] == '('
    ensures r.Parsed? ==> i <= r.pos <= |s|
    decreases |s| - i, 0
  {
    var line := ParseLine(s, GetToken(s, i).next);
    if line.Failed? || At(s, SkipSpace(s, line.pos)) != ')' then Failed
    else
      var rs := ParseRedirs(s, GetToken(s, SkipSpace(s, line.pos)).next);
      if rs.BadRedir? then Failed else Parsed(Wrapped(line.cmd, rs.wraps), rs.pos)
  }

  function ParsePipe(s: string, i: int): (r: Parsed)
    requires 0 <= i <= |s|
    ensures r.Parsed? ==> i <= r.pos <= |s|
    decreases |s| - i, 2
  {
    var left := ParseExec(s, i);
    if left.Failed? then Failed
    else
      var p := SkipSpace(s, left.pos);
      if At(s, p) != '|' then Parsed(left.cmd, p)
      else
        var right := ParsePipe(s, GetToken(s, p).next);
        if right.Failed? then Failed else Parsed(Pipe(left.cmd, right.cmd), right.pos)
  }

  /** The loop of parseline on '&'. */
  function ParseBacks(s: string, cmd: Cmd, i: int): (r: Parsed)
    requires 0 <= i <= |s|
    ensures r.Parsed? && i <= r.pos <= |s|
    decreases |s| - i
  {
    var p := SkipSpace(s, i);
    if At(s, p) == '&' then ParseBacks(s, Back(cmd), GetToken(s, p).next) else Parsed(cmd, p)
  }

  function ParseLine(s: string, i: int): (r: Parsed)
    requires 0 <= i <= |s|
    ensures r.Parsed? ==> i <= r.pos <= |s|
    decreases |s| - i, 3
  {
    var first := ParsePipe(s, i);
    if first.Failed? then Failed
    else
      var b := ParseBacks(s, first.cmd, first.pos);
      var p := SkipSpace(s, b.pos);
      if At(s, p) != ';' then Parsed(b.cmd, p)
      else
        var rest := ParseLine(s, GetToken(s, p).next);
        if rest.Failed? then Failed else Parsed(List(b.cmd, rest.cmd), rest.pos)
  }

  /** parsecmd, before nulterminate. */
  function ParseCmd(s: string): Parsed
  {
    var line := ParseLine(s, 0);
    if line.Failed? || SkipSpace(s, line.pos) != |s| then Failed else Parsed(line.cmd, |s|)
  }
}
