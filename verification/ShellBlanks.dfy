/** Blanks in a command line: which characters they are, that they are all alike, and that a line may end in them. */
module ShellBlanks {
  import opened ShellGrammar
  import opened ShellSyntax
  import opened ShellTokens

  predicate Blank(c: char)
  {
    c in [' ', '\t', '\r', '\n', '\U{000B}']
  }

  // ---- One blank is as good as another

  /** s' is s with blanks exchanged for other blanks. */
  predicate Alike(s: string, s': string)
  {
    |s| == |s'| && forall x :: 0 <= x < |s| ==> s[x] == s'[x] || (Blank(s[x]) && Blank(s'[x]))
  }

  lemma AlikeAt(s: string, s': string, x: int)
    requires Alike(s, s')
    ensures IsSpace(At(s, x)) == IsSpace(At(s', x)) && (!IsSpace(At(s, x)) ==> At(s', x) == At(s, x))
  {
  }

  lemma {:induction false} AlikeSkip(s: string, s': string, i: int)
    requires Alike(s, s') && 0 <= i <= |s|
    ensures SkipSpace(s', i) == SkipSpace(s, i) && SkipWord(s', i) == SkipWord(s, i)
    decreases |s| - i
  {
    AlikeAt(s, s', i);
    if i < |s| { AlikeSkip(s, s', i + 1); }
  }

  lemma AlikeToken(s: string, s': string, i: int)
    requires Alike(s, s') && 0 <= i <= |s|
    ensures SkipSpace(s', i) == SkipSpace(s, i) && At(s', SkipSpace(s, i)) == At(s, SkipSpace(s, i))
    ensures GetToken(s', i) == GetToken(s, i)
  {
    var q := SkipSpace(s, i);
    AlikeSkip(s, s', i);
    AlikeSkip(s, s', q);
    AlikeAt(s, s', q);
    AlikeAt(s, s', q + 1);
    AlikeSkip(s, s', GetToken(s, i).eq);
    hide Alike, SkipSpace, SkipWord, IsSpace;
  }

  lemma {:induction false} AlikeRedirs(s: string, s': string, i: int)
    requires Alike(s, s') && 0 <= i <= |s|
    ensures ParseRedirs(s', i) == ParseRedirs(s, i)
    decreases |s| - i
  {
    AlikeToken(s, s', i);
    var p := SkipSpace(s, i);
    var t := GetToken(s, p);
    AlikeToken(s, s', p);
    AlikeToken(s, s', t.next);
    hide SkipSpace;
    if (At(s, p) == '<' || At(s, p) == '>') && GetToken(s, t.next).kind == 'a' {
      AlikeRedirs(s, s', GetToken(s, t.next).next);
    }
  }

  lemma {:induction false} AlikeArgs(s: string, s': string, i: int, argv: seq<Span>, wraps: seq<Wrap>)
    requires Alike(s, s') && 0 <= i <= |s|
    ensures ParseArgs(s', i, argv, wraps) == ParseArgs(s, i, argv, wraps)
    decreases |s| - i
  {
    AlikeToken(s, s', i);
    var p := SkipSpace(s, i);
    var t := GetToken(s, p);
    AlikeToken(s, s', p);
    AlikeRedirs(s, s', t.next);
    hide SkipSpace, GetToken;
    if !EndsArgs(At(s, p)) && t.kind == 'a' && |argv| + 1 < MAXARGS {
      var rs := ParseRedirs(s, t.next);
      if rs.Redirs? { AlikeArgs(s, s', rs.pos, argv + [Span(t.q, t.eq)], wraps + rs.wraps); }
    }
  }

  lemma {:induction false} AlikeExec(s: string, s': string, i: int)
    requires Alike(s, s') && 0 <= i <= |s|
    ensures ParseExec(s', i) == ParseExec(s, i)
    decreases |s| - i, 1
  {
    AlikeToken(s, s', i);
    var p := SkipSpace(s, i);
    if At(s, p) == '(' {
      AlikeBlock(s, s', p);
    } else {
      AlikeRedirs(s, s', p);
      var rs := ParseRedirs(s, p);
      if rs.Redirs? { AlikeArgs(s, s', rs.pos, [], rs.wraps); }
    }
  }

  lemma {:induction false} AlikeBlock(s: string, s': string, i: int)
    requires Alike(s, s') && 0 <= i < |s| && s[i] == '('
    ensures s'[i] == '(' && ParseBlock(s', i) == ParseBlock(s, i)
    decreases |s| - i, 0
  {
    AlikeAt(s, s', i);
    AlikeToken(s, s', i);
    AlikeLine(s, s', GetToken(s, i).next);
    var line := ParseLine(s, GetToken(s, i).next);
    if line.Parsed? {
      AlikeToken(s, s', line.pos);
      var p := SkipSpace(s, line.pos);
      AlikeToken(s, s', p);
      AlikeRedirs(s, s', GetToken(s, p).next);
    }
  }

  lemma {:induction false} AlikePipe(s: string, s': string, i: int)
    requires Alike(s, s') && 0 <= i <= |s|
    ensures ParsePipe(s', i) == ParsePipe(s, i)
    decreases |s| - i, 2
  {
    AlikeExec(s, s', i);
    var left := ParseExec(s, i);
    if left.Parsed? {
      AlikeToken(s, s', left.pos);
      var p := SkipSpace(s, left.pos);
      AlikeToken(s, s', p);
      if At(s, p) == '|' { AlikePipe(s, s', GetToken(s, p).next); }
    }
  }

  lemma {:induction false} AlikeBacks(s: string, s': string, c: Cmd, i: int)
    requires Alike(s, s') && 0 <= i <= |s|
    ensures ParseBacks(s', c, i) == ParseBacks(s, c, i)
    decreases |s| - i
  {
    AlikeToken(s, s', i);
    var p := SkipSpace(s, i);
    AlikeToken(s, s', p);
    if At(s, p) == '&' { AlikeBacks(s, s', Back(c), GetToken(s, p).next); }
  }

  lemma {:induction false} AlikeLine(s: string, s': string, i: int)
    requires Alike(s, s') && 0 <= i <= |s|
    ensures ParseLine(s', i) == ParseLine(s, i)
    decreases |s| - i, 3
  {
    AlikePipe(s, s', i);
    var first := ParsePipe(s, i);
    if first.Parsed? {
      AlikeBacks(s, s', first.cmd, first.pos);
      var b := ParseBacks(s, first.cmd, first.pos);
      AlikeToken(s, s', b.pos);
      var p := SkipSpace(s, b.pos);
      AlikeToken(s, s', p);
      if At(s, p) == ';' { AlikeLine(s, s', GetToken(s, p).next); }
    }
  }

  /** The words of c read the same in s and in s'. */
  ghost predicate SameWords(s: string, s': string)
  {
    forall a: Span {:trigger WordSpan(s, a)} :: WordSpan(s, a) ==> Text(s', a) == Text(s, a)
  }

  lemma {:induction false} SameTexts(s: string, s': string, argv: seq<Span>)
    requires SameWords(s, s') && AllWords(s, argv)
    ensures Texts(s', argv) == Texts(s, argv)
  {
    forall k | 0 <= k < |argv| ensures Texts(s', argv)[k] == Texts(s, argv)[k] { assert WordSpan(s, argv[k]); }
  }

  lemma {:induction false} SameMeaning(s: string, s': string, c: Cmd)
    requires SameWords(s, s') && WordsOnly(s, c)
    ensures Meaning(s', c) == Meaning(s, c)
    decreases c
  {
    match c {
      case Exec(argv) => SameTexts(s, s', argv);
      case Redir(d, w) => SameMeaning(s, s', d); assert WordSpan(s, w.file);
      case Pipe(l, r) => SameMeaning(s, s', l); SameMeaning(s, s', r);
      case List(l, r) => SameMeaning(s, s', l); SameMeaning(s, s', r);
      case Back(d) => SameMeaning(s, s', d);
    }
  }

  lemma AlikeWords(s: string, s': string)
    requires Alike(s, s')
    ensures SameWords(s, s')
  {
    forall a: Span | WordSpan(s, a) ensures Text(s', a) == Text(s, a) {
      forall x | a.q <= x < a.eq ensures s'[x] == s[x] { assert IsWordChar(s[x]); AlikeAt(s, s', x); }
      assert s'[a.q..a.eq] == s[a.q..a.eq];
    }
  }

  /** Exchanging blanks for blanks changes neither what is accepted nor what it means. */
  lemma BlanksAlike(s: string, s': string)
    requires NoNul(s) && Alike(s, s')
    ensures ParseCmd(s').Parsed? <==> ParseCmd(s).Parsed?
    ensures ParseCmd(s).Parsed? ==> Meaning(s', ParseCmd(s').cmd) == Meaning(s, ParseCmd(s).cmd)
  {
    AlikeLine(s, s', 0);
    var line := ParseLine(s, 0);
    if line.Parsed? {
      AlikeToken(s, s', line.pos);
      LineWords(s, 0);
      hide ParseLine, SkipSpace, GetToken, WordsOnly, Alike, SameWords, Meaning;
      AlikeWords(s, s');
      SameMeaning(s, s', line.cmd);
    }
  }

  // ---- Blanks at the end

  predicate AllBlank(g: string)
  {
    forall x :: 0 <= x < |g| ==> Blank(g[x])
  }

  /** Where the parser of s + g is when that of s is at p: past g, if p is the end of s. */
  function Past(s: string, g: string, p: int): int
  {
    if p == |s| then |s| + |g| else p
  }

  /** Place j of s + g corresponds to place i of s. */
  predicate Near(s: string, g: string, i: int, j: int)
  {
    AllBlank(g) && 0 <= i <= |s| && (j == i || j == Past(s, g, i))
  }

  lemma {:induction false} EndSkip(s: string, g: string, j: int)
    requires AllBlank(g) && |s| <= j <= |s + g|
    ensures SkipSpace(s + g, j) == |s| + |g|
    decreases |s + g| - j
  {
    if j < |s + g| {
      assert (s + g)[j] == g[j - |s|];
      EndSkip(s, g, j + 1);
    }
  }

  lemma {:induction false} PadSkip(s: string, g: string, i: int)
    requires AllBlank(g) && 0 <= i <= |s|
    ensures SkipSpace(s + g, i) == Past(s, g, SkipSpace(s, i)) && SkipWord(s + g, i) == SkipWord(s, i)
    decreases |s| - i
  {
    if i < |s| {
      assert (s + g)[i] == s[i];
      PadSkip(s, g, i + 1);
    } else {
      EndSkip(s, g, i);
      assert g != [] ==> (s + g)[i] == g[0];
    }
  }

  lemma NearSkip(s: string, g: string, i: int, j: int)
    requires Near(s, g, i, j)
    ensures j <= |s + g| && SkipSpace(s + g, j) == Past(s, g, SkipSpace(s, i))
    ensures At(s + g, SkipSpace(s + g, j)) == At(s, SkipSpace(s, i))
  {
    PadSkip(s, g, i);
    if i == |s| { EndSkip(s, g, j); }
    hide AllBlank;
  }

  /** The same token at the same place, but for the end of the line. */
  lemma NearToken(s: string, g: string, i: int, j: int)
    requires Near(s, g, i, j)
    ensures j <= |s + g|
    ensures var t, t' := GetToken(s, i), GetToken(s + g, j);
      && t'.kind == t.kind && t'.next == Past(s, g, t.next) && (t.kind != NUL ==> t'.q == t.q && t'.eq == t.eq)
  {
    NearSkip(s, g, i, j);
    var q := SkipSpace(s, i);
    PadSkip(s, g, q);
    NextAt(s, g, q);
    PadSkip(s, g, GetToken(s, i).eq);
    EndSkip(s, g, |s + g|);
    hide AllBlank, SkipSpace, SkipWord, IsSymbol, IsSpace;
    if q == |s| {
      assert GetToken(s, i) == Token(NUL, q, q, SkipSpace(s, q));
    } else {
      assert SkipSpace(s + g, j) == q && At(s, q) == At(s + g, q);
    }
  }

  lemma NextAt(s: string, g: string, q: int)
    requires AllBlank(g) && 0 <= q <= |s|
    ensures At(s + g, q + 1) == '>' <==> At(s, q + 1) == '>'
  {
    if |s| <= q + 1 < |s + g| { assert (s + g)[q + 1] == g[q + 1 - |s|]; }
  }

  function PadRedirs(s: string, g: string, r: Redirs): Redirs
  {
    if r.BadRedir? then BadRedir else Redirs(r.wraps, Past(s, g, r.pos))
  }

  function PadParsed(s: string, g: string, r: Parsed): Parsed
  {
    if r.Failed? then Failed else Parsed(r.cmd, Past(s, g, r.pos))
  }

  lemma {:induction false} NearRedirs(s: string, g: string, i: int, j: int)
    requires Near(s, g, i, j)
    ensures j <= |s + g| && ParseRedirs(s + g, j) == PadRedirs(s, g, ParseRedirs(s, i))
    decreases |s| - i
  {
    NearSkip(s, g, i, j);
    var p, p' := SkipSpace(s, i), SkipSpace(s + g, j);
    NearToken(s, g, p, p');
    var t, t' := GetToken(s, p), GetToken(s + g, p');
    NearToken(s, g, t.next, t'.next);
    var f, f' := GetToken(s, t.next), GetToken(s + g, t'.next);
    hide SkipSpace, GetToken, AllBlank;
    if (At(s, p) == '<' || At(s, p) == '>') && f.kind == 'a' { NearRedirs(s, g, f.next, f'.next); }
  }

  lemma {:induction false} NearArgs(s: string, g: string, i: int, j: int, argv: seq<Span>, wraps: seq<Wrap>)
    requires Near(s, g, i, j)
    ensures j <= |s + g| && ParseArgs(s + g, j, argv, wraps) == PadParsed(s, g, ParseArgs(s, i, argv, wraps))
    decreases |s| - i
  {
    NearSkip(s, g, i, j);
    var p, p' := SkipSpace(s, i), SkipSpace(s + g, j);
    NearToken(s, g, p, p');
    var t, t' := GetToken(s, p), GetToken(s + g, p');
    NearRedirs(s, g, t.next, t'.next);
    hide SkipSpace, GetToken, AllBlank;
    if !EndsArgs(At(s, p)) && t.kind == 'a' && |argv| + 1 < MAXARGS {
      var rs, rs' := ParseRedirs(s, t.next), ParseRedirs(s + g, t'.next);
      if rs.Redirs? { NearArgs(s, g, rs.pos, rs'.pos, argv + [Span(t.q, t.eq)], wraps + rs.wraps); }
    }
  }

  lemma {:induction false} NearExec(s: string, g: string, i: int, j: int)
    requires Near(s, g, i, j)
    ensures j <= |s + g| && ParseExec(s + g, j) == PadParsed(s, g, ParseExec(s, i))
    decreases |s| - i, 1
  {
    NearSkip(s, g, i, j);
    var p, p' := SkipSpace(s, i), SkipSpace(s + g, j);
    hide SkipSpace, AllBlank;
    if At(s, p) == '(' {
      NearBlock(s, g, p);
    } else {
      NearRedirs(s, g, p, p');
      var rs, rs' := ParseRedirs(s, p), ParseRedirs(s + g, p');
      if rs.Redirs? { NearArgs(s, g, rs.pos, rs'.pos, [], rs.wraps); }
    }
  }

  lemma {:induction false} NearBlock(s: string, g: string, i: int)
    requires AllBlank(g) && 0 <= i < |s| && s[i] == '('
    ensures (s + g)[i] == '(' && ParseBlock(s + g, i) == PadParsed(s, g, ParseBlock(s, i))
    decreases |s| - i, 0
  {
    NearToken(s, g, i, i);
    var a, a' := GetToken(s, i).next, GetToken(s + g, i).next;
    NearLine(s, g, a, a');
    var line, line' := ParseLine(s, a), ParseLine(s + g, a');
    if line.Parsed? {
      NearSkip(s, g, line.pos, line'.pos);
      var p, p' := SkipSpace(s, line.pos), SkipSpace(s + g, line'.pos);
      NearToken(s, g, p, p');
      NearRedirs(s, g, GetToken(s, p).next, GetToken(s + g, p').next);
      hide SkipSpace, GetToken, AllBlank;
    }
  }

  lemma {:induction false} NearPipe(s: string, g: string, i: int, j: int)
    requires Near(s, g, i, j)
    ensures j <= |s + g| && ParsePipe(s + g, j) == PadParsed(s, g, ParsePipe(s, i))
    decreases |s| - i, 2
  {
    NearExec(s, g, i, j);
    var left, left' := ParseExec(s, i), ParseExec(s + g, j);
    if left.Parsed? {
      NearSkip(s, g, left.pos, left'.pos);
      var p, p' := SkipSpace(s, left.pos), SkipSpace(s + g, left'.pos);
      NearToken(s, g, p, p');
      hide SkipSpace, AllBlank;
      if At(s, p) == '|' { NearPipe(s, g, GetToken(s, p).next, GetToken(s + g, p').next); }
    }
  }

  lemma {:induction false} NearBacks(s: string, g: string, c: Cmd, i: int, j: int)
    requires Near(s, g, i, j)
    ensures j <= |s + g| && ParseBacks(s + g, c, j) == PadParsed(s, g, ParseBacks(s, c, i))
    decreases |s| - i
  {
    NearSkip(s, g, i, j);
    var p, p' := SkipSpace(s, i), SkipSpace(s + g, j);
    NearToken(s, g, p, p');
    hide SkipSpace, AllBlank;
    if At(s, p) == '&' { NearBacks(s, g, Back(c), GetToken(s, p).next, GetToken(s + g, p').next); }
  }

  lemma {:induction false} NearLine(s: string, g: string, i: int, j: int)
    requires Near(s, g, i, j)
    ensures j <= |s + g| && ParseLine(s + g, j) == PadParsed(s, g, ParseLine(s, i))
    decreases |s| - i, 3
  {
    NearPipe(s, g, i, j);
    var first, first' := ParsePipe(s, i), ParsePipe(s + g, j);
    if first.Parsed? {
      NearBacks(s, g, first.cmd, first.pos, first'.pos);
      var b, b' := ParseBacks(s, first.cmd, first.pos), ParseBacks(s + g, first.cmd, first'.pos);
      NearSkip(s, g, b.pos, b'.pos);
      var p, p' := SkipSpace(s, b.pos), SkipSpace(s + g, b'.pos);
      NearToken(s, g, p, p');
      hide SkipSpace, AllBlank;
      if At(s, p) == ';' { NearLine(s, g, GetToken(s, p).next, GetToken(s + g, p').next); }
    }
  }

  lemma PadWords(s: string, g: string)
    ensures SameWords(s, s + g)
  {
    forall a: Span | WordSpan(s, a) ensures Text(s + g, a) == Text(s, a) { assert (s + g)[a.q..a.eq] == s[a.q..a.eq]; }
  }

  /** Blanks at the end of a line, such as its newline, change neither whether it is accepted nor what it means. */
  lemma TrailingBlanks(s: string, g: string)
    requires NoNul(s) && AllBlank(g)
    ensures ParseCmd(s + g).Parsed? <==> ParseCmd(s).Parsed?
    ensures ParseCmd(s).Parsed? ==> Meaning(s + g, ParseCmd(s + g).cmd) == Meaning(s, ParseCmd(s).cmd)
  {
    NearLine(s, g, 0, 0);
    var line, line' := ParseLine(s, 0), ParseLine(s + g, 0);
    if line.Parsed? {
      NearSkip(s, g, line.pos, line'.pos);
      LineWords(s, 0);
      hide SkipSpace, AllBlank, ParseLine, WordsOnly, SameWords, Meaning;
      PadWords(s, g);
      SameMeaning(s, s + g, line.cmd);
    }
  }

  /** The line that the shell reads ends in a newline, which does not matter. */
  lemma NewlineIgnored(s: string)
    requires NoNul(s)
    ensures ParseCmd(s + "\n").Parsed? <==> ParseCmd(s).Parsed?
    ensures ParseCmd(s).Parsed? ==> Meaning(s + "\n", ParseCmd(s + "\n").cmd) == Meaning(s, ParseCmd(s).cmd)
  {
    TrailingBlanks(s, "\n");
  }

  // ---- Everything else belongs to a word

  /** Neither blank nor symbol nor NUL. */
  predicate Plain(c: char)
  {
    c != '\0' && !Blank(c) && c !in "<|>&;()"
  }

  predicate Inside(a: Span, x: int)
  {
    a.q <= x < a.eq
  }

  /** Place x is in an argument or a file name of c. */
  ghost predicate Covered(c: Cmd, x: int)
  {
    exists a :: TokenOf(c, a) && Inside(a, x)
  }

  ghost predicate CoveredByArgs(argv: seq<Span>, x: int)
  {
    exists k :: 0 <= k < |argv| && Inside(argv[k], x)
  }

  ghost predicate CoveredByWraps(wraps: seq<Wrap>, x: int)
  {
    exists k :: 0 <= k < |wraps| && Inside(wraps[k].file, x)
  }

  lemma {:induction false} NotSkipped(s: string, i: int, x: int)
    requires 0 <= i <= |s| && i <= x < SkipSpace(s, i)
    ensures !Plain(s[x])
    decreases |s| - i
  {
    if i < x { NotSkipped(s, i + 1, x); }
  }

  /** A plain character that gettoken passes is in the word it returns. */
  lemma TokenCovers(s: string, i: int, x: int)
    requires 0 <= i <= |s| && i <= x < GetToken(s, i).next && Plain(s[x])
    ensures var t := GetToken(s, i); t.kind == 'a' && t.q <= x < t.eq
  {
    var t := GetToken(s, i);
    if x < t.q { NotSkipped(s, i, x); }
    if t.eq <= x { NotSkipped(s, t.eq, x); }
    hide SkipSpace, SkipWord;
  }

  lemma {:induction false} RedirsCover(s: string, i: int, x: int)
    requires 0 <= i <= |s| && ParseRedirs(s, i).Redirs? && i <= x < ParseRedirs(s, i).pos && Plain(s[x])
    ensures CoveredByWraps(ParseRedirs(s, i).wraps, x)
    decreases |s| - i
  {
    var p := SkipSpace(s, i);
    if x < p { NotSkipped(s, i, x); }
    var t := GetToken(s, p);
    var f := GetToken(s, t.next);
    var r := ParseRedirs(s, i);
    if x < t.next {
      TokenCovers(s, p, x);
    } else if x < f.next {
      TokenCovers(s, t.next, x);
      assert Inside(r.wraps[0].file, x);
    } else {
      RedirsCover(s, f.next, x);
      var rest := ParseRedirs(s, f.next).wraps;
      var k :| 0 <= k < |rest| && Inside(rest[k].file, x);
      assert r.wraps[k + 1] == rest[k];
    }
  }

  lemma {:induction false} WrappedCovers(c: Cmd, wraps: seq<Wrap>, x: int)
    requires Covered(c, x) || CoveredByWraps(wraps, x)
    ensures Covered(Wrapped(c, wraps), x)
    decreases |wraps|
  {
    if wraps != [] {
      var d := Redir(c, wraps[0]);
      if Covered(c, x) {
        var a :| TokenOf(c, a) && Inside(a, x);
        assert TokenOf(d, a);
      } else {
        var k :| 0 <= k < |wraps| && Inside(wraps[k].file, x);
        if k == 0 { assert TokenOf(d, wraps[0].file); } else { assert wraps[1..][k - 1] == wraps[k]; }
      }
      WrappedCovers(d, wraps[1..], x);
    }
  }

  lemma ExecCovers(argv: seq<Span>, x: int)
    requires CoveredByArgs(argv, x)
    ensures Covered(Exec(argv), x)
  {
    var k :| 0 <= k < |argv| && Inside(argv[k], x);
    assert TokenOf(Exec(argv), argv[k]);
  }

  lemma CoverMore(argv: seq<Span>, more: seq<Span>, wraps: seq<Wrap>, mores: seq<Wrap>, x: int)
    ensures CoveredByArgs(argv, x) || CoveredByArgs(more, x) ==> CoveredByArgs(argv + more, x)
    ensures CoveredByWraps(wraps, x) || CoveredByWraps(mores, x) ==> CoveredByWraps(wraps + mores, x)
  {
    if k :| 0 <= k < |argv| && Inside(argv[k], x) { assert (argv + more)[k] == argv[k]; }
    if k :| 0 <= k < |more| && Inside(more[k], x) { assert (argv + more)[|argv| + k] == more[k]; }
    if k :| 0 <= k < |wraps| && Inside(wraps[k].file, x) { assert (wraps + mores)[k] == wraps[k]; }
    if k :| 0 <= k < |mores| && Inside(mores[k].file, x) { assert (wraps + mores)[|wraps| + k] == mores[k]; }
  }

  lemma {:induction false} ArgsCover(s: string, i: int, argv: seq<Span>, wraps: seq<Wrap>, x: int)
    requires 0 <= i <= |s| && ParseArgs(s, i, argv, wraps).Parsed?
    requires CoveredByArgs(argv, x) || CoveredByWraps(wraps, x) ||
             (i <= x < ParseArgs(s, i, argv, wraps).pos && Plain(s[x]))
    ensures Covered(ParseArgs(s, i, argv, wraps).cmd, x)
    decreases |s| - i
  {
    var p := SkipSpace(s, i);
    if i <= x < p { NotSkipped(s, i, x); }
    var t := GetToken(s, p);
    if p <= x < t.next && Plain(s[x]) { TokenCovers(s, p, x); }
    hide SkipSpace, GetToken, Covered, CoveredByArgs, CoveredByWraps, Plain, Wrapped;
    if EndsArgs(At(s, p)) || t.kind == NUL {
      if CoveredByArgs(argv, x) { ExecCovers(argv, x); }
      WrappedCovers(Exec(argv), wraps, x);
    } else {
      var a := Span(t.q, t.eq);
      var rs := ParseRedirs(s, t.next);
      if p <= x < t.next && Plain(s[x]) { OneCovers(a, x); }
      if t.next <= x < rs.pos && Plain(s[x]) { RedirsCover(s, t.next, x); }
      CoverMore(argv, [a], wraps, rs.wraps, x);
      ArgsCover(s, rs.pos, argv + [a], wraps + rs.wraps, x);
    }
  }

  lemma OneCovers(a: Span, x: int)
    requires Inside(a, x)
    ensures CoveredByArgs([a], x)
  {
    assert Inside([a][0], x);
  }

  lemma {:induction false} ExecCover(s: string, i: int, x: int)
    requires 0 <= i <= |s| && ParseExec(s, i).Parsed? && i <= x < ParseExec(s, i).pos && Plain(s[x])
    ensures Covered(ParseExec(s, i).cmd, x)
    decreases |s| - i, 1
  {
    var p := SkipSpace(s, i);
    if x < p { NotSkipped(s, i, x); }
    hide SkipSpace, Covered, CoveredByArgs, CoveredByWraps, Plain;
    if At(s, p) == '(' {
      BlockCover(s, p, x);
    } else {
      var rs := ParseRedirs(s, p);
      if x < rs.pos { RedirsCover(s, p, x); }
      ArgsCover(s, rs.pos, [], rs.wraps, x);
    }
  }

  lemma {:induction false} BlockCover(s: string, i: int, x: int)
    requires 0 <= i < |s| && s[i] == '(' && ParseBlock(s, i).Parsed? && i <= x < ParseBlock(s, i).pos && Plain(s[x])
    ensures Covered(ParseBlock(s, i).cmd, x)
    decreases |s| - i, 0
  {
    var t := GetToken(s, i);
    var line := ParseLine(s, t.next);
    var p := SkipSpace(s, line.pos);
    var u := GetToken(s, p);
    var rs := ParseRedirs(s, u.next);
    if x < t.next { TokenCovers(s, i, x); }
    if line.pos <= x < p { NotSkipped(s, line.pos, x); }
    if p <= x < u.next { TokenCovers(s, p, x); }
    hide Covered, CoveredByWraps, Plain, Wrapped;
    if x < line.pos { LineCover(s, t.next, x); }
    if u.next <= x { RedirsCover(s, u.next, x); }
    WrappedCovers(line.cmd, rs.wraps, x);
  }

  lemma SideCovers(l: Cmd, r: Cmd, x: int)
    requires Covered(l, x) || Covered(r, x)
    ensures Covered(Pipe(l, r), x) && Covered(List(l, r), x)
  {
    if Covered(l, x) {
      var a :| TokenOf(l, a) && Inside(a, x);
      assert TokenOf(Pipe(l, r), a) && TokenOf(List(l, r), a);
    } else {
      var a :| TokenOf(r, a) && Inside(a, x);
      assert TokenOf(Pipe(l, r), a) && TokenOf(List(l, r), a);
    }
  }

  lemma {:induction false} PipeCover(s: string, i: int, x: int)
    requires 0 <= i <= |s| && ParsePipe(s, i).Parsed? && i <= x < ParsePipe(s, i).pos && Plain(s[x])
    ensures Covered(ParsePipe(s, i).cmd, x)
    decreases |s| - i, 2
  {
    var left := ParseExec(s, i);
    if x < left.pos { ExecCover(s, i, x); }
    var p := SkipSpace(s, left.pos);
    if left.pos <= x < p { NotSkipped(s, left.pos, x); }
    if At(s, p) == '|' {
      var t := GetToken(s, p);
      if p <= x < t.next { TokenCovers(s, p, x); }
      hide Covered, Plain;
      if t.next <= x { PipeCover(s, t.next, x); }
      SideCovers(left.cmd, ParsePipe(s, t.next).cmd, x);
    }
  }

  lemma {:induction false} BacksCover(s: string, c: Cmd, i: int, x: int)
    requires 0 <= i <= |s| && (Covered(c, x) || (i <= x < ParseBacks(s, c, i).pos && Plain(s[x])))
    ensures Covered(ParseBacks(s, c, i).cmd, x)
    decreases |s| - i
  {
    var p := SkipSpace(s, i);
    if i <= x < p { NotSkipped(s, i, x); }
    if At(s, p) == '&' {
      var t := GetToken(s, p);
      if p <= x < t.next && Plain(s[x]) { TokenCovers(s, p, x); }
      if Covered(c, x) {
        var a :| TokenOf(c, a) && Inside(a, x);
        assert TokenOf(Back(c), a);
      }
      BacksCover(s, Back(c), t.next, x);
    }
  }

  lemma {:induction false} LineCover(s: string, i: int, x: int)
    requires 0 <= i <= |s| && ParseLine(s, i).Parsed? && i <= x < ParseLine(s, i).pos && Plain(s[x])
    ensures Covered(ParseLine(s, i).cmd, x)
    decreases |s| - i, 3
  {
    var first := ParsePipe(s, i);
    if x < first.pos { PipeCover(s, i, x); }
    var b := ParseBacks(s, first.cmd, first.pos);
    if x < b.pos { BacksCover(s, first.cmd, first.pos, x); }
    var p := SkipSpace(s, b.pos);
    if b.pos <= x < p { NotSkipped(s, b.pos, x); }
    if At(s, p) == ';' {
      var t := GetToken(s, p);
      if p <= x < t.next { TokenCovers(s, p, x); }
      hide Covered, Plain;
      if t.next <= x { LineCover(s, t.next, x); }
      SideCovers(b.cmd, ParseLine(s, t.next).cmd, x);
    }
  }

  /** Every character of an accepted line but blanks and symbols is in one of its arguments or file names, and these
      hold no others. */
  lemma WordsAreTheRest(s: string, x: int)
    requires NoNul(s) && ParseCmd(s).Parsed? && 0 <= x < |s|
    ensures Covered(ParseCmd(s).cmd, x) <==> !Blank(s[x]) && s[x] !in "<|>&;()"
  {
    var line := ParseLine(s, 0);
    if Plain(s[x]) {
      if line.pos <= x { NotSkipped(s, line.pos, x); }
      LineCover(s, 0, x);
    }
    if Covered(line.cmd, x) {
      LineWords(s, 0);
      var a :| TokenOf(line.cmd, a) && Inside(a, x);
      TokenIsWord(s, line.cmd, a);
      assert IsWordChar(s[x]);
    }
  }

  lemma {:induction false} TokenIsWord(s: string, c: Cmd, a: Span)
    requires WordsOnly(s, c) && TokenOf(c, a)
    ensures WordSpan(s, a)
    decreases c
  {
    match c {
      case Exec(argv) =>
      case Redir(d, w) => if TokenOf(d, a) { TokenIsWord(s, d, a); }
      case Pipe(l, r) => if TokenOf(l, a) { TokenIsWord(s, l, a); } else { TokenIsWord(s, r, a); }
      case List(l, r) => if TokenOf(l, a) { TokenIsWord(s, l, a); } else { TokenIsWord(s, r, a); }
      case Back(d) => TokenIsWord(s, d, a);
    }
  }
}
