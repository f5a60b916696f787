/** Path names (fs.c's skipelem) against the elements of a path. */
module Paths {

  const DIRSIZ := 14

  predicate NoSlash(s: string)
  {
    forall x :: 0 <= x < |s| ==> s[x] != '/'
  }

  /** The elements of a path: the longest stretches without a slash, read from the right. */
  function Elements(p: string): seq<string>
    decreases |p|
  {
    if p == [] then [] else Grow(p[..|p| - 1], Elements(p[..|p| - 1]), p[|p| - 1])
  }

  /** The elements of a path and one more character. */
  function Grow(p: string, es: seq<string>, c: char): seq<string>
  {
    if c == '/' then es
    else if p == [] || p[|p| - 1] == '/' || es == [] then es + [[c]]
    else es[..|es| - 1] + [es[|es| - 1] + [c]]
  }

  lemma ElementsGrow(p: string, c: char)
    ensures Elements(p + [c]) == Grow(p, Elements(p), c)
  {
    var q := p + [c];
    assert q[..|q| - 1] == p && q[|q| - 1] == c;
  }

  // ---- skipelem

  function SkipSlashes(p: string, i: int): (r: int)
    requires 0 <= i <= |p|
    ensures i <= r <= |p| && (r == |p| || p[r] != '/')
    decreases |p| - i
  {
    if i < |p| && p[i] == '/' then SkipSlashes(p, i + 1) else i
  }

  function SkipName(p: string, i: int): (r: int)
    requires 0 <= i <= |p|
    ensures i <= r <= |p| && (r == |p| || p[r] == '/')
    decreases |p| - i
  {
    if i < |p| && p[i] != '/' then SkipName(p, i + 1) else i
  }

  /** The name copied, at most DIRSIZ characters, and the position after the slashes that follow. */
  datatype Elem = NoElem | Elem(name: string, next: int)

  function SkipElem(p: string, i: int): (r: Elem)
    requires 0 <= i <= |p|
    ensures r.Elem? ==> i < r.next <= |p|
  {
    var a := SkipSlashes(p, i);
    if a == |p| then NoElem
    else
      var b := SkipName(p, a);
      Elem(if b - a >= DIRSIZ then p[a..a + DIRSIZ] else p[a..b], SkipSlashes(p, b))
  }

  method Skipelem(p: string, i: int) returns (r: Elem)
    requires 0 <= i <= |p|
    ensures r == SkipElem(p, i)
  {
    var a := i;
    while a < |p| && p[a] == '/'
      invariant i <= a <= |p| && SkipSlashes(p, i) == SkipSlashes(p, a)
    {
      a := a + 1;
    }
    if a == |p| {
      return NoElem;
    }
    var b := a;
    while b < |p| && p[b] != '/'
      invariant a <= b <= |p| && SkipName(p, a) == SkipName(p, b)
    {
      b := b + 1;
    }
    var name := if b - a >= DIRSIZ then p[a..a + DIRSIZ] else p[a..b];
    var next := b;
    while next < |p| && p[next] == '/'
      invariant b <= next <= |p| && SkipSlashes(p, b) == SkipSlashes(p, next)
    {
      next := next + 1;
    }
    return Elem(name, next);
  }

  // ---- It goes through the elements

  /** A word in front of a path that is empty or starts with a slash is its first element. */
  lemma {:induction false} FirstElement(e: string, rest: string)
    requires e != [] && NoSlash(e) && (rest == [] || rest[0] == '/')
    ensures Elements(e + rest) == [e] + Elements(rest)
    decreases |rest|
  {
    hide Elements;
    if rest == [] {
      assert e + rest == e;
      OneElement(e);
      NoElements();
    } else {
      var front, c := rest[..|rest| - 1], rest[|rest| - 1];
      assert rest == front + [c] && e + rest == e + front + [c];
      FirstElement(e, front);
      LastOf(e, front, Elements(front), c);
    }
  }

  lemma LastOf(e: string, front: string, es: seq<string>, c: char)
    requires Elements(front) == es && Elements(e + front) == [e] + es && e != [] && NoSlash(e)
    requires front == [] ==> c == '/'
    requires front != [] ==> front[0] == '/'
    ensures Elements(e + front + [c]) == [e] + Elements(front + [c])
  {
    hide Elements;
    ElementsGrow(e + front, c);
    ElementsGrow(front, c);
    if c != '/' {
      if front[|front| - 1] != '/' { SomeElement(front); }
      GrowBehind(e, front, es, c);
    }
  }

  lemma GrowBehind(e: string, front: string, es: seq<string>, c: char)
    requires front != [] && c != '/' && (front[|front| - 1] != '/' ==> es != [])
    ensures Grow(e + front, [e] + es, c) == [e] + Grow(front, es, c)
  {
    assert (e + front)[|e + front| - 1] == front[|front| - 1];
    if front[|front| - 1] == '/' {
      assert [e] + (es + [[c]]) == ([e] + es) + [[c]];
    } else {
      assert ([e] + es)[..|es|] == [e] + es[..|es| - 1];
    }
  }

  lemma NoElements()
    ensures Elements([]) == []
  {
  }

  lemma SomeElement(p: string)
    requires p != [] && p[|p| - 1] != '/'
    ensures Elements(p) != []
  {
  }

  lemma {:induction false} OneElement(e: string)
    requires e != [] && NoSlash(e)
    ensures Elements(e) == [e]
    decreases |e|
  {
    if |e| > 1 {
      OneElement(e[..|e| - 1]);
      assert e[..|e| - 1] + [e[|e| - 1]] == e;
    } else {
      assert e == [e[0]];
    }
  }

  lemma {:induction false} SlashFirst(p: string)
    requires p != [] && p[0] == '/'
    ensures Elements(p) == Elements(p[1..])
    decreases |p|
  {
    if |p| > 1 {
      var front, c := p[..|p| - 1], p[|p| - 1];
      SlashFirst(front);
      var q := p[1..];
      assert q[..|q| - 1] == front[1..] && q[|q| - 1] == c;
      if c != '/' && front[|front| - 1] != '/' { assert front[1..][|front[1..]| - 1] == front[|front| - 1]; }
    }
  }

  lemma {:induction false} SlashesSkipped(p: string, i: int)
    requires 0 <= i <= |p|
    ensures Elements(p[i..]) == Elements(p[SkipSlashes(p, i)..])
    decreases |p| - i
  {
    if i < |p| && p[i] == '/' {
      SlashFirst(p[i..]);
      assert p[i..][1..] == p[i + 1..];
      SlashesSkipped(p, i + 1);
    }
  }

  lemma {:induction false} NameSkipped(p: string, i: int)
    requires 0 <= i <= |p|
    ensures NoSlash(p[i..SkipName(p, i)])
    decreases |p| - i
  {
    if i < |p| && p[i] != '/' { NameSkipped(p, i + 1); }
  }

  /** What a directory entry can hold of a name. */
  function Clip(e: string): string
  {
    if |e| >= DIRSIZ then e[..DIRSIZ] else e
  }

  /** skipelem takes the first element off a path; what it leaves does not start with a slash. */
  lemma SkipElemIs(p: string, i: int)
    requires 0 <= i <= |p|
    ensures var r := SkipElem(p, i); var es := Elements(p[i..]);
      if r.NoElem? then es == []
      else
        && es != [] && r.name == Clip(es[0]) && Elements(p[r.next..]) == es[1..]
        && (r.next == |p| || p[r.next] != '/') && (r.next == |p| <==> |es| == 1)
  {
    hide Elements, SkipSlashes, SkipName;
    var a := SkipSlashes(p, i);
    SlashesSkipped(p, i);
    NoElements();
    if a == |p| {
      assert p[a..] == [];
    } else {
      var b := SkipName(p, a);
      NameNotEmpty(p, a);
      FirstName(p, a, b);
      ClipSlice(p, a, b);
      SlashesSkipped(p, b);
      var next := SkipSlashes(p, b);
      if next < |p| { StartElement(p[next..]); } else { assert p[next..] == []; }
    }
  }

  lemma NameNotEmpty(p: string, a: int)
    requires 0 <= a < |p| && p[a] != '/'
    ensures a < SkipName(p, a) && NoSlash(p[a..SkipName(p, a)])
  {
    NameSkipped(p, a);
  }

  lemma FirstName(p: string, a: int, b: int)
    requires 0 <= a < b <= |p| && NoSlash(p[a..b]) && (b == |p| || p[b] == '/')
    ensures Elements(p[a..]) == [p[a..b]] + Elements(p[b..])
  {
    hide Elements;
    assert p[a..] == p[a..b] + p[b..];
    FirstElement(p[a..b], p[b..]);
  }

  lemma ClipSlice(p: string, a: int, b: int)
    requires 0 <= a < b <= |p|
    ensures Clip(p[a..b]) == if b - a >= DIRSIZ then p[a..a + DIRSIZ] else p[a..b]
  {
  }

  lemma {:induction false} StartElement(p: string)
    requires p != [] && p[0] != '/'
    ensures Elements(p) != []
    decreases |p|
  {
    if |p| > 1 { StartElement(p[..|p| - 1]); }
  }
}
