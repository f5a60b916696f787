/** grep.c's matcher against the language of its patterns.  Strings are without their final NUL. */
module Grep {

  const NUL: char := '\0'

  function At(s: string, i: int): char
  {
    if 0 <= i < |s| then s[i] else NUL
  }

  // ---- The matcher; positions in the text stand for pointers

  function MatchHere(re: string, text: string, i: int): bool
    requires 0 <= i <= |text|
    decreases |re|, 0
  {
    if re == [] then true
    else if At(re, 1) == '*' then MatchStar(re[0], re[2..], text, i)
    else if re == "$" then i == |text|
    else i < |text| && (re[0] == '.' || re[0] == text[i]) && MatchHere(re[1..], text, i + 1)
  }

  function MatchStar(c: char, re: string, text: string, i: int): bool
    requires 0 <= i <= |text|
    decreases |re| + 1, |text| - i
  {
    MatchHere(re, text, i) || (i < |text| && (text[i] == c || c == '.') && MatchStar(c, re, text, i + 1))
  }

  /** Whether a match starts at i or later. */
  function MatchFrom(re: string, text: string, i: int): bool
    requires 0 <= i <= |text|
    decreases |text| - i
  {
    MatchHere(re, text, i) || (i < |text| && MatchFrom(re, text, i + 1))
  }

  function Match(re: string, text: string): bool
  {
    if At(re, 0) == '^' then MatchHere(re[1..], text, 0) else MatchFrom(re, text, 0)
  }

  // ---- The loops

  method Matchhere(re: string, text: string, i: int) returns (r: bool)
    requires 0 <= i <= |text|
    ensures r == MatchHere(re, text, i)
    decreases |re|, 0
  {
    if re == [] {
      return true;
    }
    if At(re, 1) == '*' {
      r := Matchstar(re[0], re[2..], text, i);
      return;
    }
    if re[0] == '$' && |re| == 1 {
      return i == |text|;
    }
    if i < |text| && (re[0] == '.' || re[0] == text[i]) {
      r := Matchhere(re[1..], text, i + 1);
      return;
    }
    return false;
  }

  method Matchstar(c: char, re: string, text: string, i: int) returns (r: bool)
    requires 0 <= i <= |text|
    ensures r == MatchStar(c, re, text, i)
    decreases |re| + 1, 0
  {
    var p := i;
    while true
      invariant i <= p <= |text| && MatchStar(c, re, text, i) == MatchStar(c, re, text, p)
      decreases |text| - p
    {
      var here := Matchhere(re, text, p);
      if here {
        return true;
      }
      if p == |text| || !(text[p] == c || c == '.') {
        return false;
      }
      p := p + 1;
    }
  }

  method MatchText(re: string, text: string) returns (r: bool)
    ensures r == Match(re, text)
  {
    if At(re, 0) == '^' {
      r := Matchhere(re[1..], text, 0);
      return;
    }
    var p := 0;
    while true
      invariant 0 <= p <= |text| && MatchFrom(re, text, 0) == MatchFrom(re, text, p)
      decreases |text| - p
    {
      r := Matchhere(re, text, p);
      if r || p == |text| {
        return;
      }
      p := p + 1;
    }
  }

  // ---- The language

  /** A character, any number of a character, or the end of the text. */
  datatype Item = One(c: char) | Star(c: char) | End

  /** A star binds the character before it, whatever that is; a lone last dollar is the end; a star with nothing
      before it, and a dollar or caret inside, are themselves. */
  function Items(re: string): seq<Item>
  {
    if re == [] then []
    else if At(re, 1) == '*' then [Star(re[0])] + Items(re[2..])
    else if re == "$" then [End]
    else [One(re[0])] + Items(re[1..])
  }

  predicate Accepts(c: char, d: char)
  {
    c == '.' || c == d
  }

  /** Item x matches the text from a to b. */
  predicate ItemMatches(x: Item, text: string, a: int, b: int)
  {
    && 0 <= a <= b <= |text|
    && match x
       case One(c) => b == a + 1 && Accepts(c, text[a])
       case Star(c) => forall k :: a <= k < b ==> Accepts(c, text[k])
       case End => a == b == |text|
  }

  predicate CutAt(items: seq<Item>, text: string, cuts: seq<int>, j: int)
  {
    0 <= j < |items| && j + 1 < |cuts| ==> ItemMatches(items[j], text, cuts[j], cuts[j + 1])
  }

  /** The items match the text from i on, the jth from cuts[j] to cuts[j + 1]. */
  ghost predicate Matches(items: seq<Item>, text: string, i: int, cuts: seq<int>)
  {
    && |cuts| == |items| + 1 && cuts[0] == i && 0 <= i <= |text|
    && forall j {:trigger CutAt(items, text, cuts, j)} :: CutAt(items, text, cuts, j)
  }

  lemma MatchesRest(items: seq<Item>, text: string, i: int, cuts: seq<int>)
    requires Matches(items, text, i, cuts) && items != []
    ensures ItemMatches(items[0], text, i, cuts[1]) && Matches(items[1..], text, cuts[1], cuts[1..])
  {
    assert CutAt(items, text, cuts, 0);
    forall j ensures CutAt(items[1..], text, cuts[1..], j) { assert CutAt(items, text, cuts, j + 1); }
  }

  lemma MatchesMore(x: Item, items: seq<Item>, text: string, i: int, b: int, cuts: seq<int>)
    requires ItemMatches(x, text, i, b) && Matches(items, text, b, cuts)
    ensures Matches([x] + items, text, i, [i] + cuts)
  {
    forall j ensures CutAt([x] + items, text, [i] + cuts, j) { assert CutAt(items, text, cuts, j - 1); }
  }

  /** What matchhere accepts is in the language. */
  lemma {:induction false} HereSound(re: string, text: string, i: int) returns (cuts: seq<int>)
    requires 0 <= i <= |text| && MatchHere(re, text, i)
    ensures Matches(Items(re), text, i, cuts)
    decreases |re|, 0
  {
    if re == [] {
      cuts := [i];
      forall j ensures CutAt([], text, cuts, j) { }
    } else if At(re, 1) == '*' {
      var b;
      b, cuts := StarSound(re[0], re[2..], text, i);
      MatchesMore(Star(re[0]), Items(re[2..]), text, i, b, cuts);
      cuts := [i] + cuts;
    } else if re == "$" {
      cuts := [i, i];
      forall j ensures CutAt([End], text, cuts, j) { }
    } else {
      cuts := HereSound(re[1..], text, i + 1);
      MatchesMore(One(re[0]), Items(re[1..]), text, i, i + 1, cuts);
      cuts := [i] + cuts;
    }
  }

  lemma {:induction false} StarSound(c: char, re: string, text: string, i: int) returns (b: int, cuts: seq<int>)
    requires 0 <= i <= |text| && MatchStar(c, re, text, i)
    ensures ItemMatches(Star(c), text, i, b) && Matches(Items(re), text, b, cuts)
    decreases |re| + 1, |text| - i
  {
    if MatchHere(re, text, i) {
      b := i;
      cuts := HereSound(re, text, i);
    } else {
      b, cuts := StarSound(c, re, text, i + 1);
    }
  }

  /** What is in the language matchhere accepts. */
  lemma {:induction false} HereComplete(re: string, text: string, i: int, cuts: seq<int>)
    requires Matches(Items(re), text, i, cuts)
    ensures MatchHere(re, text, i)
    decreases |re|, 0
  {
    if re != [] {
      MatchesRest(Items(re), text, i, cuts);
      if At(re, 1) == '*' {
        assert Items(re)[1..] == Items(re[2..]);
        StarComplete(re[0], re[2..], text, i, cuts[1], cuts[1..]);
      } else if re != "$" {
        assert Items(re)[1..] == Items(re[1..]);
        HereComplete(re[1..], text, i + 1, cuts[1..]);
      }
    }
  }

  lemma {:induction false} StarComplete(c: char, re: string, text: string, i: int, b: int, cuts: seq<int>)
    requires ItemMatches(Star(c), text, i, b) && Matches(Items(re), text, b, cuts)
    ensures MatchStar(c, re, text, i)
    decreases |re| + 1, b - i
  {
    if i == b {
      HereComplete(re, text, i, cuts);
    } else {
      assert Accepts(c, text[i]);
      StarComplete(c, re, text, i + 1, b, cuts);
    }
  }

  /** The pattern's items match the text from i on. */
  ghost predicate InLanguage(re: string, text: string, i: int)
  {
    exists cuts :: Matches(Items(re), text, i, cuts)
  }

  lemma HereDecides(re: string, text: string, i: int)
    requires 0 <= i <= |text|
    ensures MatchHere(re, text, i) <==> InLanguage(re, text, i)
  {
    if MatchHere(re, text, i) {
      var cuts := HereSound(re, text, i);
      assert InLanguage(re, text, i);
    }
    if InLanguage(re, text, i) {
      var cuts :| Matches(Items(re), text, i, cuts);
      HereComplete(re, text, i, cuts);
    }
  }

  lemma {:induction false} FromDecides(re: string, text: string, i: int)
    requires 0 <= i <= |text|
    ensures MatchFrom(re, text, i) <==> exists k :: i <= k <= |text| && InLanguage(re, text, k)
    decreases |text| - i
  {
    hide MatchHere, InLanguage;
    HereDecides(re, text, i);
    if i < |text| { FromDecides(re, text, i + 1); }
  }

  /** match decides its pattern's language: at the start of the text after a caret, anywhere otherwise. */
  lemma MatchDecides(re: string, text: string)
    ensures Match(re, text) <==>
      if At(re, 0) == '^' then InLanguage(re[1..], text, 0)
      else exists k :: 0 <= k <= |text| && InLanguage(re, text, k)
  {
    if At(re, 0) == '^' {
      HereDecides(re[1..], text, 0);
    } else {
      FromDecides(re, text, 0);
    }
  }
}
