/**
 * The handful of Python `str` operations the scripts rely on, stated on
 * `seq<char>`: `strip`, `lower`, `startswith`, `in`, `' '.join` and `split`.
 */
module Strings {
  import opened Wrappers

  /** Python's `str.isspace()` for one character (whitespace and the
      information separators 0x1C-0x1F). */
  predicate IsSpace(c: char) {
    || ('\t' <= c <= '\r')
    || ('\U{1C}' <= c <= ' ')
    || c == '\U{85}' || c == '\U{A0}' || c == '\U{1680}'
    || ('\U{2000}' <= c <= '\U{200A}')
    || c == '\U{2028}' || c == '\U{2029}' || c == '\U{202F}' || c == '\U{205F}'
    || c == '\U{3000}'
  }

  /** No whitespace at either end: what `strip()` returns. */
  predicate Stripped(s: string) {
    s == [] || (!IsSpace(s[0]) && !IsSpace(s[|s| - 1]))
  }

  function TrimLeft(s: string): (r: string)
    ensures |r| <= |s| && r == s[|s| - |r|..]
    ensures r == [] || !IsSpace(r[0])
    ensures forall i :: 0 <= i < |s| - |r| ==> IsSpace(s[i])
  {
    if s != [] && IsSpace(s[0]) then TrimLeft(s[1..]) else s
  }

  function TrimRight(s: string): (r: string)
    ensures |r| <= |s| && r == s[..|r|]
    ensures r == [] || !IsSpace(r[|r| - 1])
    ensures forall i :: |r| <= i < |s| ==> IsSpace(s[i])
  {
    if s != [] && IsSpace(s[|s| - 1]) then TrimRight(s[..|s| - 1]) else s
  }

  /** Python's `s.strip()`: the longest infix without whitespace at its ends. */
  function Strip(s: string): (r: string)
    ensures Stripped(r)
    ensures |r| <= |s|
  {
    TrimRight(TrimLeft(s))
  }

  /** Trimming both ends leaves an infix of the original. */
  lemma TrimInfix(s: string)
    ensures OccursAt(s, TrimRight(TrimLeft(s)), |s| - |TrimLeft(s)|)
  {
    var l := TrimLeft(s);
    var r := TrimRight(l);
    assert r == s[|s| - |l|..][..|r|];
  }

  lemma {:induction false} TrimLeftKeeps(s: string)
    requires s == [] || !IsSpace(s[0])
    ensures TrimLeft(s) == s
  {
  }

  lemma {:induction false} TrimRightKeeps(s: string)
    requires s == [] || !IsSpace(s[|s| - 1])
    ensures TrimRight(s) == s
  {
  }

  /** `strip()` leaves an already stripped string alone. */
  lemma StripKeepsStripped(s: string)
    requires Stripped(s)
    ensures Strip(s) == s
  {
    TrimLeftKeeps(s);
    TrimRightKeeps(s);
  }

  /** `strip()` only removes characters. */
  lemma StripKeepsOut(s: string, c: char)
    requires c !in s
    ensures c !in Strip(s)
  {
    var r := Strip(s);
    var k := |s| - |TrimLeft(s)|;
    TrimInfix(s);
    forall i | 0 <= i < |r| ensures r[i] != c {
      assert r[i] == s[k + i];
    }
  }

  function LowerChar(c: char): char {
    if 'A' <= c <= 'Z' then (c as int + 32) as char else c
  }

  /** Python's `s.lower()`, on the ASCII letters. */
  function Lower(s: string): (r: string)
    ensures |r| == |s|
    ensures forall i :: 0 <= i < |s| ==> r[i] == LowerChar(s[i])
  {
    seq(|s|, i requires 0 <= i < |s| => LowerChar(s[i]))
  }

  /** Python's `s.startswith(p)`. */
  predicate StartsWith(s: string, p: string) {
    |p| <= |s| && s[..|p|] == p
  }

  predicate EndsWith(s: string, p: string) {
    |p| <= |s| && s[|s| - |p|..] == p
  }

  /** A string ending with `p + q` ends with `q`. */
  lemma EndsWithTail(s: string, p: string, q: string)
    requires EndsWith(s, p + q)
    ensures EndsWith(s, q)
  {
    assert s[|s| - |q|..] == s[|s| - |p + q|..][|p|..];
  }

  /** `p` occurs in `s` at position `i`. */
  predicate OccursAt(s: string, p: string, i: int) {
    0 <= i && i + |p| <= |s| && s[i..i + |p|] == p
  }

  lemma OccursAtTail(s: string, p: string, i: int)
    requires s != [] && 0 <= i
    ensures OccursAt(s[1..], p, i) <==> OccursAt(s, p, i + 1)
  {
    if 0 <= i && i + |p| <= |s| - 1 {
      assert s[1..][i..i + |p|] == s[i + 1..i + 1 + |p|];
    }
  }

  /** Python's `s.find(p)`, with `None` for -1: the first occurrence. */
  function IndexOf(s: string, p: string): (r: Option<nat>)
    ensures r.Some? ==> OccursAt(s, p, r.value)
    ensures r.Some? ==> forall j :: 0 <= j < r.value ==> !OccursAt(s, p, j)
    ensures r.None? ==> forall j :: 0 <= j ==> !OccursAt(s, p, j)
    decreases |s|
  {
    if StartsWith(s, p) then Some(0)
    else if s == [] then None
    else
      match IndexOf(s[1..], p)
      case None =>
        assert forall j :: 0 < j ==> !OccursAt(s, p, j) by {
          forall j | 0 < j ensures !OccursAt(s, p, j) { OccursAtTail(s, p, j - 1); }
        }
        None
      case Some(i) =>
        OccursAtTail(s, p, i);
        assert forall j :: 0 < j < i + 1 ==> !OccursAt(s, p, j) by {
          forall j | 0 < j < i + 1 ensures !OccursAt(s, p, j) { OccursAtTail(s, p, j - 1); }
        }
        Some(i + 1)
  }

  /** Python's `p in s`. */
  predicate Contains(s: string, p: string) {
    IndexOf(s, p).Some?
  }

  /** The first occurrence of a separator comes right after a field that
      does not contain the separator's first character. */
  lemma {:induction false} IndexOfAfterField(f: string, sep: string, tail: string)
    requires sep != [] && sep[0] !in f
    ensures IndexOf(f + sep + tail, sep) == Some(|f|)
  {
    var s := f + sep + tail;
    assert s[|f|..|f| + |sep|] == sep;
    assert OccursAt(s, sep, |f|);
  }

  /** `"".join(xs)`. */
  function Concat(xs: seq<string>): (r: string)
    ensures |xs| == 1 ==> r == xs[0]
  {
    if xs == [] then "" else xs[0] + Concat(xs[1..])
  }

  /** `sep.join(xs)`. */
  function Join(sep: string, xs: seq<string>): string {
    if xs == [] then ""
    else if |xs| == 1 then xs[0]
    else xs[0] + sep + Join(sep, xs[1..])
  }

  /** A join starts with its first element. */
  lemma JoinFirst(sep: string, xs: seq<string>)
    requires xs != []
    ensures StartsWith(Join(sep, xs), xs[0])
  {
    if |xs| > 1 {
      assert Join(sep, xs)[..|xs[0]|] == xs[0];
    }
  }

  /** Python's `s.split(c)` for a one-character separator: never empty. */
  function Split(s: string, c: char): (r: seq<string>)
    ensures |r| >= 1
  {
    if s == [] then [""]
    else
      var rest := Split(s[1..], c);
      if s[0] == c then [""] + rest else [[s[0]] + rest[0]] + rest[1..]
  }

  lemma {:induction false} SplitField(x: string, c: char, tail: string)
    requires c !in x
    ensures Split(x + [c] + tail, c) == [x] + Split(tail, c)
    ensures Split(x, c) == [x]
  {
    if x != [] {
      SplitField(x[1..], c, tail);
      assert (x + [c] + tail)[1..] == x[1..] + [c] + tail;
      assert [x[0]] + x[1..] == x;
    } else {
      assert x + [c] + tail == [c] + tail;
    }
  }

  /** Splitting a join on its separator gives the list back, provided no
      element contains the separator and the list is not empty. */
  lemma {:induction false} SplitJoin(xs: seq<string>, c: char)
    requires xs != []
    requires forall i :: 0 <= i < |xs| ==> c !in xs[i]
    ensures Split(Join([c], xs), c) == xs
  {
    if |xs| == 1 {
      SplitField(xs[0], c, "");
    } else {
      SplitJoin(xs[1..], c);
      SplitField(xs[0], c, Join([c], xs[1..]));
      assert [xs[0]] + xs[1..] == xs;
    }
  }

  /** One step of `Split`, on a text given as its first character and the
      rest. */
  lemma SplitCons(a: char, s: string, c: char)
    ensures Split([a] + s, c) ==
      if a == c then [""] + Split(s, c) else [[a] + Split(s, c)[0]] + Split(s, c)[1..]
  {
    assert ([a] + s)[0] == a && ([a] + s)[1..] == s;
  }

  /** The inductive step of `SplitAfterSeparator`, on the pieces alone. */
  lemma SplitStepBack(a: char, c: char, rest: seq<string>, restLong: seq<string>, tail: seq<string>)
    requires |rest| >= 2 && rest[|rest| - 1] == "" && restLong == rest[..|rest| - 1] + tail && tail != []
    ensures var s := if a == c then [""] + rest else [[a] + rest[0]] + rest[1..];
      var sl := if a == c then [""] + restLong else [[a] + restLong[0]] + restLong[1..];
      |s| >= 2 && s[|s| - 1] == "" && sl == s[..|s| - 1] + tail
  {
    if a == c {
      assert ([""] + rest)[..|rest|] == [""] + rest[..|rest| - 1];
    } else {
      assert restLong[0] == rest[0];
      assert ([[a] + rest[0]] + rest[1..])[..|rest| - 1] == [[a] + rest[0]] + rest[1..|rest| - 1];
      assert restLong[1..] == rest[1..|rest| - 1] + tail;
    }
  }

  /** Splitting text whose last character is the separator, followed by
      more text: the final empty piece of the first part gives way to the
      pieces of the second. */
  lemma {:induction false} SplitAfterSeparator(x: string, y: string, c: char)
    requires x != [] && x[|x| - 1] == c
    ensures |Split(x, c)| >= 2 && Split(x, c)[|Split(x, c)| - 1] == ""
    ensures Split(x + y, c) == Split(x, c)[..|Split(x, c)| - 1] + Split(y, c)
    decreases |x|
  {
    var t := x[1..];
    assert x == [x[0]] + t;
    assert x + y == [x[0]] + (t + y);
    SplitCons(x[0], t, c);
    SplitCons(x[0], t + y, c);
    if t == [] {
      assert t + y == y;
      assert Split(t, c) == [""];
    } else {
      SplitAfterSeparator(t, y, c);
      SplitStepBack(x[0], c, Split(t, c), Split(t + y, c), Split(y, c));
    }
  }
}
