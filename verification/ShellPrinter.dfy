/** Commands printed with the parentheses that the grammar needs and no others are recovered by the shell's
    parser; and the two signs for writing to a file are the same to it.
 */
module ShellPrinter {
  import opened ShellGrammar
  import opened ShellSyntax
  import opened ShellRoundTrip

  /** Words are words, no command has more arguments than parseexec takes, and redirections are for reading on
      descriptor 0 or for writing on 1. */
  predicate Printable(t: Tree)
  {
    match t
    case TExec(args) => |args| < MAXARGS && forall x :: 0 <= x < |args| ==> IsWord(args[x])
    case TRedir(c, file, mode, fd) =>
      Printable(c) && IsWord(file) && ((mode == O_RDONLY && fd == 0) || (mode == O_WRONLY_CREATE && fd == 1))
    case TPipe(l, r) => Printable(l) && Printable(r)
    case TList(l, r) => Printable(l) && Printable(r)
    case TBack(c) => Printable(c)
  }

  function Size(t: Tree): nat
  {
    match t
    case TExec(_) => 1
    case TRedir(c, _, _, _) => 1 + Size(c)
    case TPipe(l, r) => 1 + Size(l) + Size(r)
    case TList(l, r) => 1 + Size(l) + Size(r)
    case TBack(c) => 1 + Size(c)
  }

  // ---- Redirections and ampersands around a command

  function Core(t: Tree): (r: Tree)
    ensures !r.TRedir? && Size(r) <= Size(t) && (t.TRedir? ==> Size(r) < Size(t)) && (!t.TRedir? ==> r == t)
    ensures Printable(t) ==> Printable(r)
  {
    if t.TRedir? then Core(t.tree) else t
  }

  function RedirectFor(file: string, fd: int): Redirect
  {
    Redirect(if fd == 1 then Out else In, "", Word(file, " "))
  }

  /** The redirections of a command, the innermost first. */
  function Wraps(t: Tree): (r: seq<Redirect>)
    ensures Printable(t) ==> RedirsOk(r)
  {
    if t.TRedir? then Wraps(t.tree) + [RedirectFor(t.file, t.fd)] else []
  }

  lemma {:induction false} LastRedirected(t: Tree, rs: seq<Redirect>, r: Redirect)
    ensures AllRedirected(t, rs + [r]) == Redirected(AllRedirected(t, rs), r)
    decreases |rs|
  {
    if rs == [] {
      assert [r][1..] == [];
    } else {
      LastRedirected(Redirected(t, rs[0]), rs[1..], r);
      assert (rs + [r])[1..] == rs[1..] + [r];
    }
  }

  lemma {:induction false} CoreAndWraps(t: Tree)
    requires Printable(t)
    ensures AllRedirected(Core(t), Wraps(t)) == t
  {
    if t.TRedir? {
      CoreAndWraps(t.tree);
      LastRedirected(Core(t.tree), Wraps(t.tree), RedirectFor(t.file, t.fd));
    }
  }

  function BackCore(t: Tree): (r: Tree)
    ensures !r.TBack? && Size(r) <= Size(t) && (t.TBack? ==> Size(r) < Size(t)) && (!t.TBack? ==> r == t)
    ensures Printable(t) ==> Printable(r)
  {
    if t.TBack? then BackCore(t.tree) else t
  }

  function BackCount(t: Tree): nat
  {
    if t.TBack? then 1 + BackCount(t.tree) else 0
  }

  lemma {:induction false} OneMoreBack(t: Tree, n: nat)
    ensures Backs(t, n + 1) == TBack(Backs(t, n))
    decreases n
  {
    if n > 0 { OneMoreBack(TBack(t), n - 1); }
  }

  lemma {:induction false} CoreAndBacks(t: Tree)
    ensures Backs(BackCore(t), BackCount(t)) == t
  {
    if t.TBack? {
      CoreAndBacks(t.tree);
      OneMoreBack(BackCore(t.tree), BackCount(t.tree));
    }
  }

  // ---- The printer

  /** Words with a space after each, and redirections behind the last. */
  function ArgsFor(args: seq<string>, rs: seq<Redirect>): (r: seq<Arg>)
    ensures |r| == |args|
  {
    if args == [] then []
    else if |args| == 1 then [Arg(Word(args[0], " "), rs)]
    else [Arg(Word(args[0], " "), [])] + ArgsFor(args[1..], rs)
  }

  function SimpleFor(args: seq<string>, rs: seq<Redirect>): Stage
  {
    if args == [] then Simple(rs, []) else Simple([], ArgsFor(args, rs))
  }

  /** A command as a stage of a pipeline: in parentheses unless it is words and redirections. */
  function StageFor(t: Tree): Stage
    decreases Size(t), if t.TExec? || t.TRedir? then 1 else if t.TPipe? then 3 else 2
  {
    if Core(t).TExec? then SimpleFor(Core(t).args, Wraps(t)) else Block("", LineFor(Core(t)), "", Wraps(t))
  }

  function ChainFor(t: Tree): Chain
    decreases Size(t), if t.TExec? || t.TRedir? then 2 else if t.TPipe? then 1 else 3
  {
    if t.TPipe? then Piped(StageFor(t.left), "", ChainFor(t.right)) else Alone(StageFor(t))
  }

  function Gaps(n: nat): (r: seq<string>)
    ensures |r| == n && forall k :: 0 <= k < n ==> r[k] == ""
  {
    seq(n, _ => "")
  }

  function LineFor(t: Tree): Line
    decreases Size(t), if t.TExec? || t.TRedir? then 3 else if t.TPipe? then 2 else 1
  {
    if t.TList? then Line(ChainFor(BackCore(t.left)), Gaps(BackCount(t.left)), Then("", LineFor(t.right)))
    else Line(ChainFor(BackCore(t)), Gaps(BackCount(t)), End)
  }

  function Print(t: Tree): string
  {
    ShowLine(LineFor(t))
  }

  // ---- What it prints stands for the command

  lemma {:induction false} ArgsForOk(args: seq<string>, rs: seq<Redirect>)
    requires RedirsOk(rs) && forall x :: 0 <= x < |args| ==> IsWord(args[x])
    ensures ArgsOk(ArgsFor(args, rs)) && WordsOf(ArgsFor(args, rs)) == args
    ensures args != [] ==> RedirsOf(ArgsFor(args, rs)) == rs
  {
    if |args| == 1 {
      var a := ArgsFor(args, rs);
      assert a[1..] == [] && rs + RedirsOf([]) == rs;
    } else if args != [] {
      ArgsForOk(args[1..], rs);
      var a := ArgsFor(args, rs);
      assert a[1..] == ArgsFor(args[1..], rs) && [] + rs == rs;
    }
  }

  lemma SimpleForOk(args: seq<string>, rs: seq<Redirect>)
    requires RedirsOk(rs) && |args| < MAXARGS && forall x :: 0 <= x < |args| ==> IsWord(args[x])
    ensures var e := SimpleFor(args, rs); StageOk(e) && StageTree(e) == AllRedirected(TExec(args), rs)
  {
    ArgsForOk(args, rs);
    assert rs + [] == rs && [] + rs == rs;
    if args == [] { assert WordsOf([]) == args && RedirsOf([]) == []; }
  }

  lemma {:induction false} StageForOk(t: Tree)
    requires Printable(t)
    ensures StageOk(StageFor(t)) && StageTree(StageFor(t)) == t
    decreases Size(t), if t.TExec? || t.TRedir? then 1 else if t.TPipe? then 3 else 2
  {
    CoreAndWraps(t);
    if Core(t).TExec? {
      SimpleForOk(Core(t).args, Wraps(t));
    } else {
      LineForOk(Core(t));
    }
    hide LineFor, SimpleFor, LineTree, LineOk, Wraps, Core;
  }

  lemma {:induction false} ChainForOk(t: Tree)
    requires Printable(t)
    ensures ChainOk(ChainFor(t)) && ChainTree(ChainFor(t)) == t
    decreases Size(t), if t.TExec? || t.TRedir? then 2 else if t.TPipe? then 1 else 3
  {
    hide StageFor, StageTree, StageOk;
    if t.TPipe? {
      StageForOk(t.left);
      ChainForOk(t.right);
    } else {
      StageForOk(t);
    }
  }

  lemma {:induction false} LineForOk(t: Tree)
    requires Printable(t)
    ensures LineOk(LineFor(t)) && LineTree(LineFor(t)) == t
    decreases Size(t), if t.TExec? || t.TRedir? then 3 else if t.TPipe? then 2 else 1
  {
    hide ChainFor, ChainTree, ChainOk, BackCore, BackCount, Backs, Gaps;
    if t.TList? {
      ChainForOk(BackCore(t.left));
      CoreAndBacks(t.left);
      LineForOk(t.right);
    } else {
      ChainForOk(BackCore(t));
      CoreAndBacks(t);
    }
  }

  /** parsecmd recovers every command from its printed form. */
  lemma RoundTrip(t: Tree)
    requires Printable(t)
    ensures var r := ParseCmd(Print(t)); r.Parsed? && Meaning(Print(t), r.cmd) == t
  {
    hide *;
    LineForOk(t);
    NoLead();
    AcceptsLines("", LineFor(t));
    PrintIs(t);
    assert "" + ShowLine(LineFor(t)) == ShowLine(LineFor(t));
  }

  lemma NoLead()
    ensures AllSpace("")
  {
  }

  lemma PrintIs(t: Tree)
    ensures Print(t) == ShowLine(LineFor(t))
  {
  }

  // ---- Writing at the end is writing at the start

  function OutFor(r: Redirect): Redirect
  {
    if r.sign == Append then r.(sign := Out) else r
  }

  function OutsFor(rs: seq<Redirect>): (r: seq<Redirect>)
    ensures |r| == |rs| && forall k :: 0 <= k < |rs| ==> r[k] == OutFor(rs[k])
  {
    seq(|rs|, k requires 0 <= k < |rs| => OutFor(rs[k]))
  }

  function ArgsOut(args: seq<Arg>): (r: seq<Arg>)
    ensures |r| == |args| && forall k :: 0 <= k < |args| ==> r[k] == Arg(args[k].word, OutsFor(args[k].redirs))
  {
    seq(|args|, k requires 0 <= k < |args| => Arg(args[k].word, OutsFor(args[k].redirs)))
  }

  function StageOut(e: Stage): Stage
  {
    match e
    case Simple(before, args) => Simple(OutsFor(before), ArgsOut(args))
    case Block(open, line, close, redirs) => Block(open, LineOut(line), close, OutsFor(redirs))
  }

  function ChainOut(c: Chain): Chain
  {
    match c
    case Alone(e) => Alone(StageOut(e))
    case Piped(e, gap, rest) => Piped(StageOut(e), gap, ChainOut(rest))
  }

  /** The line with every `>>` replaced by `>`. */
  function LineOut(l: Line): Line
  {
    Line(ChainOut(l.chain), l.backs, match l.more case End => End case Then(gap, rest) => Then(gap, LineOut(rest)))
  }

  lemma {:induction false} OutsSame(t: Tree, rs: seq<Redirect>)
    ensures AllRedirected(t, OutsFor(rs)) == AllRedirected(t, rs)
    ensures RedirsOk(rs) ==> RedirsOk(OutsFor(rs))
    decreases |rs|
  {
    if rs != [] {
      assert OutsFor(rs)[1..] == OutsFor(rs[1..]);
      OutsSame(Redirected(t, rs[0]), rs[1..]);
    }
  }

  lemma {:induction false} ArgsSame(args: seq<Arg>)
    ensures WordsOf(ArgsOut(args)) == WordsOf(args) && RedirsOf(ArgsOut(args)) == OutsFor(RedirsOf(args))
    ensures ArgsOk(args) ==> ArgsOk(ArgsOut(args))
  {
    hide WordOk, RedirsOk, OutFor;
    if args != [] {
      assert ArgsOut(args)[1..] == ArgsOut(args[1..]);
      ArgsSame(args[1..]);
      OutsSame(TExec([]), args[0].redirs);
      OutsJoin(args[0].redirs, RedirsOf(args[1..]));
      GapSame(args[0]);
      hide LastGap;
    }
  }

  lemma OutsJoin(r1: seq<Redirect>, r2: seq<Redirect>)
    ensures OutsFor(r1) + OutsFor(r2) == OutsFor(r1 + r2)
  {
    hide OutFor;
  }

  lemma GapSame(a: Arg)
    ensures LastGap(Arg(a.word, OutsFor(a.redirs))) == LastGap(a)
  {
  }

  lemma {:induction false} StageSame(e: Stage)
    requires StageOk(e)
    ensures StageOk(StageOut(e)) && StageTree(StageOut(e)) == StageTree(e)
    decreases e, 0
  {
    match e {
      case Simple(before, args) => SimpleSame(before, args);
      case Block(open, line, close, redirs) =>
        LineSame(line);
        BlockSame(open, line, close, redirs);
    }
  }

  lemma SimpleSame(before: seq<Redirect>, args: seq<Arg>)
    requires StageOk(Simple(before, args))
    ensures var e := StageOut(Simple(before, args)); StageOk(e) && StageTree(e) == StageTree(Simple(before, args))
  {
    hide ArgsOk, WordsOf, RedirsOf, AllRedirected;
    ArgsSame(args);
    OutsSame(TExec([]), before);
    OutsSame(TExec(WordsOf(args)), before + RedirsOf(args));
    OutsJoin(before, RedirsOf(args));
  }

  lemma BlockSame(open: string, line: Line, close: string, redirs: seq<Redirect>)
    requires var e := Block(open, line, close, redirs); StageOk(e)
    requires LineOk(LineOut(line)) && LineTree(LineOut(line)) == LineTree(line)
    ensures var e := Block(open, line, close, redirs); StageOk(StageOut(e)) && StageTree(StageOut(e)) == StageTree(e)
  {
    hide LineTree, LineOk, LineOut, AllRedirected;
    OutsSame(LineTree(line), redirs);
  }

  lemma {:induction false} ChainSame(c: Chain)
    requires ChainOk(c)
    ensures ChainOk(ChainOut(c)) && ChainTree(ChainOut(c)) == ChainTree(c)
    decreases c, 1
  {
    hide StageTree, StageOk, StageOut;
    match c {
      case Alone(e) => StageSame(e);
      case Piped(e, _, rest) => StageSame(e); ChainSame(rest);
    }
  }

  lemma {:induction false} LineSame(l: Line)
    requires LineOk(l)
    ensures LineOk(LineOut(l)) && LineTree(LineOut(l)) == LineTree(l)
    decreases l, 2
  {
    hide ChainTree, ChainOk, ChainOut, Backs;
    ChainSame(l.chain);
    if l.more.Then? { LineSame(l.more.line); }
  }

  /** Every command line means the same with `>` for `>>`. */
  lemma AppendIsOut(lead: string, l: Line)
    requires AllSpace(lead) && LineOk(l)
    ensures var s, s' := lead + ShowLine(l), lead + ShowLine(LineOut(l));
      ParseCmd(s).Parsed? && ParseCmd(s').Parsed? && Meaning(s, ParseCmd(s).cmd) == Meaning(s', ParseCmd(s').cmd)
  {
    LineSame(l);
    AcceptsLines(lead, l);
    AcceptsLines(lead, LineOut(l));
    hide ParseCmd, Meaning, LineTree, LineOk, ShowLine, LineOut;
  }

  /** parseredirs at two signs before the same word: one redirection each, of that file, with the same mode and
      descriptor exactly if the signs are the same or are `>` and `>>`. */
  lemma SignsCollideIff(a: Sign, b: Sign, file: string)
    requires IsWord(file)
    ensures var s, s' := ShowSign(a) + file, ShowSign(b) + file; var r, r' := ParseRedirs(s, 0), ParseRedirs(s', 0);
      && r.Redirs? && r'.Redirs? && |r.wraps| == |r'.wraps| == 1
      && Text(s, r.wraps[0].file) == file == Text(s', r'.wraps[0].file)
      && (r.wraps[0].mode == r'.wraps[0].mode && r.wraps[0].fd == r'.wraps[0].fd <==>
            a == b || (a == Out && b == Append) || (a == Append && b == Out))
  {
    OneRedirect(a, file);
    OneRedirect(b, file);
    hide ParseRedirs, ShowSign, Text;
  }

  lemma OneRedirect(sign: Sign, file: string)
    requires IsWord(file)
    ensures var s := ShowSign(sign) + file; var r := ParseRedirs(s, 0);
      r.Redirs? && |r.wraps| == 1 && WrapIs(s, r.wraps[0], Redirect(sign, "", Word(file, "")))
  {
    var rs := [Redirect(sign, "", Word(file, ""))];
    var s := ShowSign(sign) + file;
    assert ShowRedirs(rs[1..]) == "" && file + "" == file && "" + file == file;
    assert ShowRedirs(rs) == s && s[0..|s|] == s;
    assert RedirsOk(rs);
    hide ShowRedirs, ParseRedirs, WrapIs, ShowSign, IsWord;
    var wraps := RedirsRead(s, 0, rs);
  }
}
