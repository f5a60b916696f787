/** The grammar of the shell's command lines: what they look like, spaces included, and the commands they
    stand for.  Each token carries the spaces behind it.
 */
module ShellSyntax {
  import opened ShellGrammar

  datatype Sign = In | Out | Append

  datatype Word = Word(text: string, gap: string)

  datatype Redirect = Redirect(sign: Sign, gap: string, file: Word)

  /** An argument and the redirections that follow it. */
  datatype Arg = Arg(word: Word, redirs: seq<Redirect>)

  /** `open` and `close` are the spaces behind the two parentheses. */
  datatype Stage =
    | Simple(before: seq<Redirect>, args: seq<Arg>)
    | Block(open: string, line: Line, close: string, redirs: seq<Redirect>)

  datatype Chain = Alone(stage: Stage) | Piped(stage: Stage, gap: string, rest: Chain)

  /** One ampersand for each element of `backs`, with the spaces behind it. */
  datatype Line = Line(chain: Chain, backs: seq<string>, more: More)

  datatype More = End | Then(gap: string, line: Line)

  // ---- Well-formed lines

  predicate IsWord(w: string)
  {
    w != [] && forall x :: 0 <= x < |w| ==> IsWordChar(w[x])
  }

  predicate AllSpace(g: string)
  {
    forall x :: 0 <= x < |g| ==> IsSpace(g[x])
  }

  predicate WordOk(w: Word)
  {
    IsWord(w.text) && AllSpace(w.gap)
  }

  predicate RedirectOk(r: Redirect)
  {
    AllSpace(r.gap) && WordOk(r.file)
  }

  predicate RedirsOk(rs: seq<Redirect>)
  {
    forall k :: 0 <= k < |rs| ==> RedirectOk(rs[k])
  }

  /** The spaces at the end of an argument with its redirections. */
  function LastGap(a: Arg): string
  {
    if a.redirs == [] then a.word.gap else a.redirs[|a.redirs| - 1].file.gap
  }

  /** Two words need a space between them. */
  predicate ArgsOk(args: seq<Arg>)
  {
    args != [] ==>
      && WordOk(args[0].word) && RedirsOk(args[0].redirs)
      && (|args| > 1 ==> LastGap(args[0]) != []) && ArgsOk(args[1..])
  }

  predicate StageOk(e: Stage)
  {
    match e
    case Simple(before, args) =>
      && RedirsOk(before) && ArgsOk(args) && |args| < MAXARGS
      && (before != [] && args != [] ==> before[|before| - 1].file.gap != [])
    case Block(open, line, close, redirs) => AllSpace(open) && LineOk(line) && AllSpace(close) && RedirsOk(redirs)
  }

  predicate ChainOk(c: Chain)
  {
    match c
    case Alone(e) => StageOk(e)
    case Piped(e, gap, rest) => StageOk(e) && AllSpace(gap) && ChainOk(rest)
  }

  predicate LineOk(l: Line)
  {
    && ChainOk(l.chain) && (forall k :: 0 <= k < |l.backs| ==> AllSpace(l.backs[k]))
    && match l.more
       case End => true
       case Then(gap, rest) => AllSpace(gap) && LineOk(rest)
  }

  // ---- How they are written

  function ShowSign(sign: Sign): string
  {
    match sign
    case In => "<"
    case Out => ">"
    case Append => ">>"
  }

  function ShowWord(w: Word): string
  {
    w.text + w.gap
  }

  function ShowRedirect(r: Redirect): string
  {
    ShowSign(r.sign) + (r.gap + ShowWord(r.file))
  }

  function ShowRedirs(rs: seq<Redirect>): string
  {
    if rs == [] then "" else ShowRedirect(rs[0]) + ShowRedirs(rs[1..])
  }

  function ShowArgs(args: seq<Arg>): string
  {
    if args == [] then ""
    else ShowWord(args[0].word) + (ShowRedirs(args[0].redirs) + ShowArgs(args[1..]))
  }

  function ShowStage(e: Stage): string
  {
    match e
    case Simple(before, args) => ShowRedirs(before) + ShowArgs(args)
    case Block(open, line, close, redirs) => "(" + (open + (ShowLine(line) + (")" + (close + ShowRedirs(redirs)))))
  }

  function ShowChain(c: Chain): string
  {
    match c
    case Alone(e) => ShowStage(e)
    case Piped(e, gap, rest) => ShowStage(e) + ("|" + (gap + ShowChain(rest)))
  }

  function ShowBacks(gs: seq<string>): string
  {
    if gs == [] then "" else "&" + (gs[0] + ShowBacks(gs[1..]))
  }

  function ShowMore(m: More): string
  {
    match m
    case End => ""
    case Then(gap, line) => ";" + (gap + ShowLine(line))
  }

  function ShowLine(l: Line): string
  {
    ShowChain(l.chain) + (ShowBacks(l.backs) + ShowMore(l.more))
  }

  // ---- What they mean

  /** A command tree over words. */
  datatype Tree =
    | TExec(args: seq<string>)
    | TRedir(tree: Tree, file: string, mode: int, fd: int)
    | TPipe(left: Tree, right: Tree)
    | TList(left: Tree, right: Tree)
    | TBack(tree: Tree)

  /** Both `>` and `>>` open the file for writing from its start. */
  function Redirected(t: Tree, r: Redirect): Tree
  {
    if r.sign == In then TRedir(t, r.file.text, O_RDONLY, 0) else TRedir(t, r.file.text, O_WRONLY_CREATE, 1)
  }

  /** The first redirection is the innermost. */
  function AllRedirected(t: Tree, rs: seq<Redirect>): Tree
    decreases |rs|
  {
    if rs == [] then t else AllRedirected(Redirected(t, rs[0]), rs[1..])
  }

  function WordsOf(args: seq<Arg>): (r: seq<string>)
    ensures |r| == |args|
  {
    if args == [] then [] else [args[0].word.text] + WordsOf(args[1..])
  }

  function RedirsOf(args: seq<Arg>): seq<Redirect>
  {
    if args == [] then [] else args[0].redirs + RedirsOf(args[1..])
  }

  function StageTree(e: Stage): Tree
  {
    match e
    case Simple(before, args) => AllRedirected(TExec(WordsOf(args)), before + RedirsOf(args))
    case Block(_, line, _, redirs) => AllRedirected(LineTree(line), redirs)
  }

  function ChainTree(c: Chain): Tree
  {
    match c
    case Alone(e) => StageTree(e)
    case Piped(e, _, rest) => TPipe(StageTree(e), ChainTree(rest))
  }

  function Backs(t: Tree, n: nat): Tree
    decreases n
  {
    if n == 0 then t else Backs(TBack(t), n - 1)
  }

  function LineTree(l: Line): Tree
  {
    var t := Backs(ChainTree(l.chain), |l.backs|);
    match l.more
    case End => t
    case Then(_, rest) => TList(t, LineTree(rest))
  }

  // ---- The trees that the parser builds

  /** The text of a span. */
  function Text(s: string, a: Span): string
  {
    if 0 <= a.q <= a.eq <= |s| then s[a.q..a.eq] else []
  }

  function Texts(s: string, argv: seq<Span>): (r: seq<string>)
    ensures |r| == |argv|
  {
    seq(|argv|, k requires 0 <= k < |argv| => Text(s, argv[k]))
  }

  /** The tree that a parsed command stands for. */
  function Meaning(s: string, c: Cmd): Tree
  {
    match c
    case Exec(argv) => TExec(Texts(s, argv))
    case Redir(d, w) => TRedir(Meaning(s, d), Text(s, w.file), w.mode, w.fd)
    case Pipe(l, r) => TPipe(Meaning(s, l), Meaning(s, r))
    case List(l, r) => TList(Meaning(s, l), Meaning(s, r))
    case Back(d) => TBack(Meaning(s, d))
  }
}
