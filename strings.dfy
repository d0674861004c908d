/**
 * The handful of Python `str` operations the CLI relies on, stated over
 * `seq<char>`: `startswith`, `in`, `split(c)`, `split(c, maxsplit=1)`,
 * `split()`, `strip(chars)`, `lower()`, `join`, `replace(c, '')`, `str(int)`
 * and iteration over the lines of a text file.
 */
module Strings {
  import opened Wrappers

  /** The characters `str.isspace()` accepts: what `str.strip()` and `str.split()` remove. */
  const Whitespace: set<char> :=
    {' ', '\t', '\n', '\r', '\U{000B}', '\U{000C}', '\U{001C}', '\U{001D}', '\U{001E}', '\U{001F}',
     '\U{0085}', '\U{00A0}', '\U{1680}', '\U{2000}', '\U{2001}', '\U{2002}', '\U{2003}', '\U{2004}',
     '\U{2005}', '\U{2006}', '\U{2007}', '\U{2008}', '\U{2009}', '\U{200A}', '\U{2028}', '\U{2029}',
     '\U{202F}', '\U{205F}', '\U{3000}'}

  /** `s.startswith(p)` */
  predicate IsPrefix(p: string, s: string) {
    |p| <= |s| && s[..|p|] == p
  }

  /** `sub in s` */
  predicate Contains(s: string, sub: string)
    decreases |s|
  {
    IsPrefix(sub, s) || (s != [] && Contains(s[1..], sub))
  }

  /** `s.find(c)`, as an option. */
  function IndexOf(s: string, c: char): (r: Option<nat>)
    ensures r.None? <==> c !in s
    ensures r.Some? ==> r.value < |s| && s[r.value] == c && c !in s[..r.value]
    ensures r.Some? ==> forall j :: 0 <= j < r.value ==> s[j] != c
  {
    if s == [] then None
    else if s[0] == c then Some(0)
    else
      match IndexOf(s[1..], c)
      case None => None
      case Some(i) =>
        assert s[..i + 1] == [s[0]] + s[1..][..i];
        Some(i + 1)
  }

  /** The first occurrence is the one with no occurrence before it. */
  lemma IndexOfAt(s: string, c: char, i: nat)
    requires i < |s| && s[i] == c && c !in s[..i]
    ensures IndexOf(s, c) == Some(i)
  {
    assert c in s by { assert s[i] == c; }
    forall j | 0 <= j < i ensures s[j] != c {
      assert s[..i][j] == s[j];
    }
  }

  /** `s.split(c, maxsplit=1)` when it yields two parts; `None` when it yields one. */
  function SplitOnce(s: string, c: char): (r: Option<(string, string)>)
    ensures r.None? <==> c !in s
    ensures r.Some? ==> c !in r.value.0 && s == r.value.0 + [c] + r.value.1
  {
    match IndexOf(s, c)
    case None => None
    case Some(i) =>
      assert s == s[..i] + [c] + s[i + 1..];
      Some((s[..i], s[i + 1..]))
  }

  /** `s.split(c)` */
  function Split(s: string, c: char): (r: seq<string>)
    ensures |r| >= 1
    decreases |s|
  {
    match IndexOf(s, c)
    case None => [s]
    case Some(i) => [s[..i]] + Split(s[i + 1..], c)
  }

  lemma SplitWithout(s: string, c: char)
    requires c !in s
    ensures Split(s, c) == [s]
  {
  }

  /** Splitting at the first separator: the text before it, then the split of the rest. */
  lemma SplitAt(s: string, c: char, i: nat)
    requires i < |s| && s[i] == c && c !in s[..i]
    ensures Split(s, c) == [s[..i]] + Split(s[i + 1..], c)
  {
    IndexOfAt(s, c, i);
  }

  /** A separator-free head followed by a separator splits into that head, then the split of the rest. */
  lemma SplitJoined(h: string, c: char, t: string)
    requires c !in h
    ensures Split(h + [c] + t, c) == [h] + Split(t, c)
  {
    var s := h + [c] + t;
    assert s[..|h|] == h && s[|h|] == c && s[|h| + 1..] == t;
    SplitAt(s, c, |h|);
  }

  /** Splitting at a separator that is followed by a separator-free tail adds that tail as the last part. */
  lemma {:induction false} SplitSnoc(p: string, c: char, t: string)
    requires c !in t
    ensures Split(p + [c] + t, c) == Split(p, c) + [t]
    decreases |p|
  {
    if c !in p {
      SplitTwo(p, c, t);
      SplitWithout(p, c);
    } else {
      var i := IndexOf(p, c).value;
      SplitPrefix(p, c, t, i);
      SplitSnoc(p[i + 1..], c, t);
    }
  }

  /** Both `p` and `p + [c] + t` split first at `p`'s first separator. */
  lemma SplitPrefix(p: string, c: char, t: string, i: nat)
    requires i < |p| && p[i] == c && c !in p[..i]
    ensures Split(p + [c] + t, c) == [p[..i]] + Split(p[i + 1..] + [c] + t, c)
    ensures Split(p, c) == [p[..i]] + Split(p[i + 1..], c)
  {
    var s := p + [c] + t;
    assert s[..i] == p[..i] && s[i] == c && s[i + 1..] == p[i + 1..] + [c] + t;
    SplitAt(s, c, i);
    SplitAt(p, c, i);
  }

  /** Two separator-free parts joined by one separator split back into those two parts. */
  lemma SplitTwo(p: string, c: char, t: string)
    requires c !in p && c !in t
    ensures Split(p + [c] + t, c) == [p, t]
  {
    var s := p + [c] + t;
    assert s[..|p|] == p && s[|p|] == c && s[|p| + 1..] == t;
    SplitAt(s, c, |p|);
    SplitWithout(t, c);
  }

  /** The first part of a split is everything before the first separator. */
  lemma SplitHead(h: string, t: string, c: char)
    requires c !in h
    requires t == [] || t[0] == c
    ensures Split(h + t, c)[0] == h
  {
    var s := h + t;
    assert s[..|h|] == h;
    if t == [] {
      assert s == h;
      SplitWithout(h, c);
    } else {
      assert s[|h|] == c;
      IndexOfAt(s, c, |h|);
    }
  }

  function StripLeft(s: string, cs: set<char>): (r: string)
    ensures r != [] ==> r[0] !in cs
    decreases |s|
  {
    if s != [] && s[0] in cs then StripLeft(s[1..], cs) else s
  }

  function StripRight(s: string, cs: set<char>): (r: string)
    decreases |s|
  {
    if s != [] && s[|s| - 1] in cs then StripRight(s[..|s| - 1], cs) else s
  }

  /** `s.strip(chars)` */
  function Strip(s: string, cs: set<char>): string {
    StripRight(StripLeft(s, cs), cs)
  }

  /** A string whose two ends are not in `cs` is left alone by `strip`. */
  lemma StripNoop(s: string, cs: set<char>)
    requires s != [] ==> s[0] !in cs && s[|s| - 1] !in cs
    ensures Strip(s, cs) == s
  {
  }

  function LowerChar(c: char): char {
    if 'A' <= c <= 'Z' then (c as int + 32) as char else c
  }

  /** `s.lower()` on ASCII letters */
  function Lower(s: string): (r: string)
    ensures |r| == |s|
  {
    seq(|s|, i requires 0 <= i < |s| => LowerChar(s[i]))
  }

  /** `sep.join(parts)` */
  function Join(parts: seq<string>, sep: string): string
    decreases |parts|
  {
    if parts == [] then ""
    else if |parts| == 1 then parts[0]
    else parts[0] + sep + Join(parts[1..], sep)
  }

  /** `s.replace(c, '')` */
  function RemoveAll(s: string, c: char): (r: string)
    ensures c !in r
    ensures forall d :: d != c ==> (d in r <==> d in s)
  {
    if s == [] then ""
    else (if s[0] == c then "" else [s[0]]) + RemoveAll(s[1..], c)
  }

  predicate IsDigit(c: char) {
    '0' <= c <= '9'
  }

  /** The longest prefix of `s` made of ASCII digits, what a greedy `[0-9]*` consumes. */
  function DigitRun(s: string): (r: string)
    ensures IsPrefix(r, s)
    ensures forall i :: 0 <= i < |r| ==> IsDigit(r[i])
    ensures |r| < |s| ==> !IsDigit(s[|r|])
  {
    if s != [] && IsDigit(s[0]) then [s[0]] + DigitRun(s[1..]) else ""
  }

  /** The prefix of `s` up to its first whitespace character. */
  function TakeWord(s: string): (r: string)
    ensures IsPrefix(r, s)
    ensures forall i :: 0 <= i < |r| ==> r[i] !in Whitespace
  {
    if s != [] && s[0] !in Whitespace then [s[0]] + TakeWord(s[1..]) else ""
  }

  /** `s.split()[0]`; `None` where Python raises IndexError (a blank string). */
  function FirstField(s: string): (r: Option<string>)
    ensures r.Some? ==> r.value != [] && forall i :: 0 <= i < |r.value| ==> r.value[i] !in Whitespace
  {
    var t := StripLeft(s, Whitespace);
    if t == [] then None else Some(TakeWord(t))
  }

  function DigitChar(d: nat): char
    requires d < 10
  {
    "0123456789"[d]
  }

  function NatToString(n: nat): (r: string)
    ensures r != []
    ensures forall i :: 0 <= i < |r| ==> IsDigit(r[i])
  {
    if n < 10 then [DigitChar(n)] else NatToString(n / 10) + [DigitChar(n % 10)]
  }

  /** `str(n)` for a Python int */
  function IntToString(n: int): (r: string)
    ensures r != []
    ensures forall i :: 0 <= i < |r| ==> IsDigit(r[i]) || r[i] == '-'
    ensures IsDigit(r[|r| - 1])
  {
    if n < 0 then "-" + NatToString(-n) else NatToString(n)
  }

  // ---------------- lines of a text file ----------------

  /** What iterating over a text file yields: each line keeps its terminating newline. */
  function Lines(s: string): (r: seq<string>)
    decreases |s|
  {
    if s == [] then []
    else
      match IndexOf(s, '\n')
      case None => [s]
      case Some(i) => [s[..i + 1]] + Lines(s[i + 1..])
  }

  /** Writing lines one after another. */
  function Concat(ls: seq<string>): string
    decreases |ls|
  {
    if ls == [] then "" else ls[0] + Concat(ls[1..])
  }

  /** Some element of `s` satisfies `p`. */
  ghost predicate AnyHolds<T>(s: seq<T>, p: T -> bool) {
    exists i :: 0 <= i < |s| && p(s[i])
  }

  lemma AnyHoldsSnoc<T>(s: seq<T>, p: T -> bool)
    requires s != []
    ensures AnyHolds(s, p) <==> AnyHolds(s[..|s| - 1], p) || p(s[|s| - 1])
  {
    var n := |s| - 1;
    if AnyHolds(s[..n], p) {
      var i :| 0 <= i < n && p(s[..n][i]);
      assert s[..n][i] == s[i];
    }
    if AnyHolds(s, p) {
      var i :| 0 <= i < |s| && p(s[i]);
      if i < n {
        assert s[..n][i] == s[i];
      }
    }
  }

  /** The prefix as long as the sequence is the sequence. */
  lemma WholePrefix<T>(s: seq<T>)
    ensures s[..|s|] == s
  {
  }

  /** A non-empty sequence is its prefix followed by its last element. */
  lemma InitLast<T>(s: seq<T>)
    requires s != []
    ensures s[..|s| - 1] + [s[|s| - 1]] == s
  {
  }

  lemma {:induction false} ConcatSnoc(ls: seq<string>, l: string)
    ensures Concat(ls + [l]) == Concat(ls) + l
    decreases |ls|
  {
    if ls == [] {
      assert [l][1..] == [];
    } else {
      assert (ls + [l])[1..] == ls[1..] + [l];
      ConcatSnoc(ls[1..], l);
    }
  }

  /** A line as file iteration produces it: not empty, and a newline only at its end. */
  predicate IsLine(l: string) {
    l != [] && '\n' !in l[..|l| - 1]
  }

  /** Lines that `Lines` could have produced: all but the last end in a newline. */
  predicate WellFormedLines(ls: seq<string>) {
    forall i :: 0 <= i < |ls| ==> IsLine(ls[i]) && (i < |ls| - 1 ==> ls[i][|ls[i]| - 1] == '\n')
  }

  lemma {:induction false} ConcatLines(s: string)
    ensures Concat(Lines(s)) == s
    decreases |s|
  {
    if s != [] {
      match IndexOf(s, '\n')
      case None =>
      case Some(i) =>
        ConcatLines(s[i + 1..]);
        assert s == s[..i + 1] + s[i + 1..];
    }
  }

  lemma {:induction false} LinesWellFormed(s: string)
    ensures WellFormedLines(Lines(s))
    decreases |s|
  {
    if s != [] {
      match IndexOf(s, '\n')
      case None =>
      case Some(i) =>
        LinesWellFormed(s[i + 1..]);
        var rest := Lines(s[i + 1..]);
        assert s[..i + 1][..i] == s[..i];
        assert Lines(s) == [s[..i + 1]] + rest;
        forall j | 0 <= j < |Lines(s)|
          ensures IsLine(Lines(s)[j]) && (j < |Lines(s)| - 1 ==> Lines(s)[j][|Lines(s)[j]| - 1] == '\n')
        {
          if j > 0 {
            assert Lines(s)[j] == rest[j - 1];
          }
        }
    }
  }

  lemma {:induction false} LinesConcat(ls: seq<string>)
    requires WellFormedLines(ls)
    ensures Lines(Concat(ls)) == ls
    decreases |ls|
  {
    if ls != [] {
      var l := ls[0];
      WellFormedTail(ls);
      LinesConcat(ls[1..]);
      assert Concat(ls) == l + Concat(ls[1..]);
      if l[|l| - 1] == '\n' {
        LinesCons(l, Concat(ls[1..]));
        assert ls == [l] + ls[1..];
      } else {
        assert |ls| == 1 && ls[1..] == [];
        assert l + "" == l;
        LinesLast(l);
      }
    }
  }

  lemma WellFormedTail(ls: seq<string>)
    requires ls != [] && WellFormedLines(ls)
    ensures WellFormedLines(ls[1..])
  {
    forall j | 0 <= j < |ls[1..]|
      ensures IsLine(ls[1..][j]) && (j < |ls[1..]| - 1 ==> ls[1..][j][|ls[1..][j]| - 1] == '\n')
    {
      assert ls[1..][j] == ls[j + 1];
    }
  }

  /** A line ending in a newline splits off the front. */
  lemma LinesCons(l: string, rest: string)
    requires IsLine(l) && l[|l| - 1] == '\n'
    ensures Lines(l + rest) == [l] + Lines(rest)
  {
    var s := l + rest;
    assert s[..|l| - 1] == l[..|l| - 1];
    assert s[|l| - 1] == '\n';
    IndexOfAt(s, '\n', |l| - 1);
    assert s[..|l|] == l;
    assert s[|l|..] == rest;
  }

  /** A last line without a newline is read back whole. */
  lemma LinesLast(l: string)
    requires IsLine(l) && l[|l| - 1] != '\n'
    ensures Lines(l) == [l]
  {
    assert l == l[..|l| - 1] + [l[|l| - 1]];
    assert '\n' !in l;
  }


  /** Reading back what was written line by line gives back the same number of lines. */
  lemma LineCountKept(ls: seq<string>)
    requires WellFormedLines(ls)
    ensures |Lines(Concat(ls))| == |ls|
  {
    LinesConcat(ls);
  }
}
