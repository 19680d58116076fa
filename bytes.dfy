/** The byte-level helpers of Go's `bytes` and `strings` packages that the two
    comment detectors use: LastIndexByte, TrimSpace (on ASCII whitespace),
    HasPrefix and strings.Split on "\n" (with its inverse, strings.Join). */
module Bytes {

  type byte = b: int | 0 <= b < 256

  const NewLine: byte := 10
  const CarriageReturn: byte := 13
  const Hash: byte := 35
  const Slash: byte := 47

  /** The ASCII bytes Go's TrimSpace removes: '\t', '\n', '\v', '\f', '\r' and ' '. */
  predicate IsSpace(b: byte) {
    b == 9 || b == 10 || b == 11 || b == 12 || b == 13 || b == 32
  }

  predicate AllSpace(s: seq<byte>) {
    forall i :: 0 <= i < |s| ==> IsSpace(s[i])
  }

  /** bytes.LastIndexByte: the index of the last `c` in `s`, or -1. */
  function LastIndexByte(s: seq<byte>, c: byte): (i: int)
    ensures -1 <= i < |s|
    ensures 0 <= i ==> s[i] == c
    ensures forall k :: i < k < |s| ==> s[k] != c
  {
    if s == [] then -1
    else if s[|s| - 1] == c then |s| - 1
    else LastIndexByte(s[..|s| - 1], c)
  }

  /** The postcondition of LastIndexByte determines its result. */
  lemma LastIndexByteAt(s: seq<byte>, c: byte, j: nat)
    requires j < |s| && s[j] == c
    requires forall k :: j < k < |s| ==> s[k] != c
    ensures LastIndexByte(s, c) == j
  {
  }

  /** The last `c` of `a + b` is the last one of `b`, if any, else the last one of `a`. */
  lemma {:induction false} LastIndexByteAppend(a: seq<byte>, b: seq<byte>, c: byte)
    ensures LastIndexByte(a + b, c) ==
      if LastIndexByte(b, c) >= 0 then |a| + LastIndexByte(b, c) else LastIndexByte(a, c)
    decreases |b|
  {
    if b == [] {
      assert a + b == a;
    } else if b[|b| - 1] != c {
      assert (a + b)[..|a + b| - 1] == a + b[..|b| - 1];
      LastIndexByteAppend(a, b[..|b| - 1], c);
    }
  }

  /** bytes.HasPrefix */
  predicate HasPrefix(s: seq<byte>, prefix: seq<byte>) {
    |prefix| <= |s| && s[..|prefix|] == prefix
  }

  /** The leading-whitespace half of TrimSpace. */
  function TrimLeft(s: seq<byte>): (t: seq<byte>)
    ensures |t| <= |s| && t == s[|s| - |t|..]
    ensures forall i :: 0 <= i < |s| - |t| ==> IsSpace(s[i])
    ensures t != [] ==> !IsSpace(t[0])
  {
    if s != [] && IsSpace(s[0]) then
      var t := TrimLeft(s[1..]);
      assert forall i :: 1 <= i < |s| ==> s[i] == s[1..][i - 1];
      t
    else s
  }

  /** The trailing-whitespace half of TrimSpace. */
  function TrimRight(s: seq<byte>): (t: seq<byte>)
    ensures |t| <= |s| && t == s[..|t|]
    ensures forall i :: |t| <= i < |s| ==> IsSpace(s[i])
    ensures t != [] ==> !IsSpace(t[|t| - 1])
  {
    if s != [] && IsSpace(s[|s| - 1]) then
      var t := TrimRight(s[..|s| - 1]);
      assert forall i :: 0 <= i < |s| - 1 ==> s[i] == s[..|s| - 1][i];
      t
    else s
  }

  /** Where the trimmed line begins inside the untrimmed one. */
  function TrimStart(s: seq<byte>): nat
    ensures TrimStart(s) <= |s|
  {
    |s| - |TrimLeft(s)|
  }

  /** A line with no whitespace at either end. */
  predicate Trimmed(t: seq<byte>) {
    t == [] || (!IsSpace(t[0]) && !IsSpace(t[|t| - 1]))
  }

  /** bytes.TrimSpace / strings.TrimSpace restricted to ASCII whitespace. */
  function TrimSpace(s: seq<byte>): (t: seq<byte>)
    ensures |t| <= |s|
    ensures Trimmed(t)
  {
    var l := TrimLeft(s);
    var t := TrimRight(l);
    assert t != [] ==> t[0] == l[0];
    t
  }

  /** A line is its leading whitespace, its trimmed text and its trailing
      whitespace: TrimSpace returns an infix and removes only whitespace. */
  lemma TrimSpaceSplits(s: seq<byte>)
    ensures TrimStart(s) + |TrimSpace(s)| <= |s|
    ensures s == s[..TrimStart(s)] + TrimSpace(s) + s[TrimStart(s) + |TrimSpace(s)|..]
    ensures AllSpace(s[..TrimStart(s)]) && AllSpace(s[TrimStart(s) + |TrimSpace(s)|..])
  {
    TrimSpaceInfix(s);
    LeadingSpace(s);
    TrimSpaceTrailing(s);
  }

  lemma TrimSpaceInfix(s: seq<byte>)
    ensures TrimStart(s) + |TrimSpace(s)| <= |s|
    ensures s == s[..TrimStart(s)] + TrimSpace(s) + s[TrimStart(s) + |TrimSpace(s)|..]
  {
    var l := TrimLeft(s);
    InfixSplit(s, |s| - |l|, l, TrimRight(l));
  }

  lemma TrimSpaceTrailing(s: seq<byte>)
    requires TrimStart(s) + |TrimSpace(s)| <= |s|
    ensures AllSpace(s[TrimStart(s) + |TrimSpace(s)|..])
  {
    var l := TrimLeft(s);
    InfixSplit(s, |s| - |l|, l, TrimRight(l));
    TrailingSpace(l);
  }

  /** Cutting a prefix `t` off a suffix `l` of `s` cuts `s` in three. */
  lemma InfixSplit(s: seq<byte>, k: nat, l: seq<byte>, t: seq<byte>)
    requires k <= |s| && l == s[k..] && |t| <= |l| && t == l[..|t|]
    ensures s == s[..k] + t + s[k + |t|..]
    ensures s[k + |t|..] == l[|t|..]
  {
    assert s[k..k + |t|] == t;
    assert s == s[..k] + s[k..k + |t|] + s[k + |t|..];
  }

  lemma LeadingSpace(s: seq<byte>)
    ensures AllSpace(s[..TrimStart(s)])
  {
    assert forall i :: 0 <= i < TrimStart(s) ==> s[..TrimStart(s)][i] == s[i];
  }

  lemma TrailingSpace(l: seq<byte>)
    ensures AllSpace(l[|TrimRight(l)|..])
  {
    var n := |TrimRight(l)|;
    assert forall i :: 0 <= i < |l| - n ==> l[n..][i] == l[n + i];
  }

  /** TrimSpace leaves an already trimmed line alone. */
  lemma TrimSpaceOfTrimmed(t: seq<byte>)
    requires Trimmed(t)
    ensures TrimSpace(t) == t
  {
    assert TrimLeft(t) == t;
    assert TrimRight(t) == t;
  }

  /** TrimSpace is idempotent. */
  lemma TrimSpaceIdempotent(s: seq<byte>)
    ensures TrimSpace(TrimSpace(s)) == TrimSpace(s)
  {
    TrimSpaceOfTrimmed(TrimSpace(s));
  }

  lemma {:induction false} TrimLeftPadded(l: seq<byte>, t: seq<byte>)
    requires AllSpace(l)
    requires t == [] || !IsSpace(t[0])
    ensures TrimLeft(l + t) == t
  {
    if l == [] {
      assert l + t == t;
    } else {
      assert (l + t)[1..] == l[1..] + t;
      TrimLeftPadded(l[1..], t);
    }
  }

  lemma {:induction false} TrimRightPadded(t: seq<byte>, r: seq<byte>)
    requires AllSpace(r)
    requires t == [] || !IsSpace(t[|t| - 1])
    ensures TrimRight(t + r) == t
  {
    if r == [] {
      assert t + r == t;
    } else {
      assert (t + r)[..|t + r| - 1] == t + r[..|r| - 1];
      TrimRightPadded(t, r[..|r| - 1]);
    }
  }

  /** Whatever whitespace surrounds a trimmed line, TrimSpace returns the line
      without it. */
  lemma TrimSpacePadded(l: seq<byte>, t: seq<byte>, r: seq<byte>)
    requires AllSpace(l) && AllSpace(r) && Trimmed(t)
    ensures TrimSpace(l + t + r) == t
  {
    assert l + t + r == l + (t + r);
    if t == [] {
      assert t + r == r;
      assert AllSpace(l + r) by {
        assert forall i :: |l| <= i < |l + r| ==> (l + r)[i] == r[i - |l|];
      }
      assert l + r == (l + r) + t;
      TrimLeftPadded(l + r, t);
      TrimRightPadded(t, t);
    } else {
      TrimLeftPadded(l, t + r);
      TrimRightPadded(t, r);
    }
  }

  /** Whitespace appended to a line does not survive TrimRight. */
  lemma {:induction false} TrimRightAppendSpace(x: seq<byte>, r: seq<byte>)
    requires AllSpace(r)
    ensures TrimRight(x + r) == TrimRight(x)
  {
    if r == [] {
      assert x + r == x;
    } else {
      assert (x + r)[..|x + r| - 1] == x + r[..|r| - 1];
      TrimRightAppendSpace(x, r[..|r| - 1]);
    }
  }

  /** Whitespace appended to a line survives TrimLeft only after some text. */
  lemma {:induction false} TrimLeftAppendSpace(x: seq<byte>, r: seq<byte>)
    requires AllSpace(r)
    ensures TrimLeft(x) == [] ==> TrimLeft(x + r) == []
    ensures TrimLeft(x) != [] ==> TrimLeft(x + r) == TrimLeft(x) + r
  {
    if x == [] {
      assert x + r == r;
      TrimLeftPadded(r, x);
      assert r + x == r;
    } else if IsSpace(x[0]) {
      assert (x + r)[1..] == x[1..] + r;
      TrimLeftAppendSpace(x[1..], r);
    }
  }

  /** Whitespace appended to a line does not survive TrimSpace. */
  lemma TrimSpaceAppendSpace(s: seq<byte>, r: seq<byte>)
    requires AllSpace(r)
    ensures TrimSpace(s + r) == TrimSpace(s)
  {
    TrimLeftAppendSpace(s, r);
    if TrimLeft(s) != [] {
      TrimRightAppendSpace(TrimLeft(s), r);
    }
  }

  /** A Windows line ending left on the inspected line does not survive TrimSpace. */
  lemma TrimSpaceDropsCarriageReturn(s: seq<byte>)
    ensures TrimSpace(s + [CarriageReturn]) == TrimSpace(s)
  {
    TrimSpaceAppendSpace(s, [CarriageReturn]);
  }

  /** strings.Split(s, "\n"): the pieces between consecutive newlines. */
  function SplitLines(s: seq<byte>): (lines: seq<seq<byte>>)
    ensures lines != []
    ensures forall k :: 0 <= k < |lines| ==> NewLine !in lines[k]
    decreases |s|
  {
    var i := LastIndexByte(s, NewLine);
    if i < 0 then [s]
    else SplitLines(s[..i]) + [s[i + 1..]]
  }

  /** There is one more line than there are newlines. */
  lemma {:induction false} SplitLinesCount(s: seq<byte>)
    ensures |SplitLines(s)| == multiset(s)[NewLine] + 1
    decreases |s|
  {
    var i := LastIndexByte(s, NewLine);
    if i < 0 {
      assert NewLine !in s;
    } else {
      assert s == s[..i] + [NewLine] + s[i + 1..];
      assert NewLine !in s[i + 1..];
      SplitLinesCount(s[..i]);
    }
  }

  /** One step of SplitLines: the piece after the last newline is the last line. */
  lemma SplitLinesAtLast(s: seq<byte>, i: int)
    requires i == LastIndexByte(s, NewLine) && i >= 0
    ensures SplitLines(s) == SplitLines(s[..i]) + [s[i + 1..]]
  {
  }

  /** strings.Join(lines, "\n"). */
  function JoinLines(lines: seq<seq<byte>>): seq<byte>
    requires lines != []
  {
    if |lines| == 1 then lines[0]
    else JoinLines(lines[..|lines| - 1]) + [NewLine] + lines[|lines| - 1]
  }

  /** Joining one more piece adds a newline and that piece. */
  lemma JoinLinesTake(lines: seq<seq<byte>>, k: nat)
    requires 0 < k < |lines|
    ensures JoinLines(lines[..k + 1]) == JoinLines(lines[..k]) + [NewLine] + lines[k]
  {
    var p := lines[..k + 1];
    assert p[..|p| - 1] == lines[..k];
  }

  /** The joined text is the lines before piece `k`, a newline, and the rest. */
  lemma {:induction false} JoinLinesSplit(lines: seq<seq<byte>>, k: nat)
    requires 0 < k < |lines|
    ensures JoinLines(lines) == JoinLines(lines[..k]) + [NewLine] + JoinLines(lines[k..])
    decreases |lines|
  {
    var init := lines[..|lines| - 1];
    var last := lines[|lines| - 1];
    var tail := lines[k..];
    if k == |lines| - 1 {
      assert tail == [last];
    } else {
      JoinLinesSplit(init, k);
      assert init[..k] == lines[..k];
      assert tail[..|tail| - 1] == init[k..];
      assert JoinLines(tail) == JoinLines(init[k..]) + [NewLine] + last;
    }
  }

  /** The joined text starts with the first piece. */
  lemma {:induction false} JoinLinesHead(lines: seq<seq<byte>>)
    requires lines != []
    ensures lines[0] <= JoinLines(lines)
    decreases |lines|
  {
    if |lines| > 1 {
      var init := lines[..|lines| - 1];
      JoinLinesHead(init);
      assert init[0] == lines[0];
    }
  }

  /** The joined text up to `indent` at the start of piece `k` is the lines
      before it, a newline and `indent`. */
  lemma JoinLinesIndentPrefix(lines: seq<seq<byte>>, k: nat, indent: seq<byte>)
    requires 0 < k < |lines| && indent <= lines[k]
    ensures |JoinLines(lines[..k])| + 1 + |indent| <= |JoinLines(lines)|
    ensures JoinLines(lines)[..|JoinLines(lines[..k])| + 1 + |indent|] == JoinLines(lines[..k]) + [NewLine] + indent
  {
    var head := JoinLines(lines[..k]);
    var rest := JoinLines(lines[k..]);
    JoinLinesSplit(lines, k);
    JoinLinesHead(lines[k..]);
    assert lines[k..][0] == lines[k];
    assert rest[..|indent|] == indent;
    assert JoinLines(lines) == (head + [NewLine]) + rest;
  }

  /** Joining newline-free pieces puts exactly one newline between each two. */
  lemma JoinLinesNewLines(lines: seq<seq<byte>>)
    requires lines != []
    requires forall k :: 0 <= k < |lines| ==> NewLine !in lines[k]
    ensures multiset(JoinLines(lines))[NewLine] == |lines| - 1
  {
    SplitJoinLines(lines);
    SplitLinesCount(JoinLines(lines));
  }

  /** Joining the pieces back gives the original bytes. */
  lemma {:induction false} JoinSplitLines(s: seq<byte>)
    ensures JoinLines(SplitLines(s)) == s
    decreases |s|
  {
    var i := LastIndexByte(s, NewLine);
    if i >= 0 {
      var lines := SplitLines(s);
      JoinSplitLines(s[..i]);
      assert lines[..|lines| - 1] == SplitLines(s[..i]);
      assert s == s[..i] + [NewLine] + s[i + 1..];
    }
  }

  /** Splitting newline-free pieces joined by newlines gives the pieces back. */
  lemma {:induction false} SplitJoinLines(lines: seq<seq<byte>>)
    requires lines != []
    requires forall k :: 0 <= k < |lines| ==> NewLine !in lines[k]
    ensures SplitLines(JoinLines(lines)) == lines
  {
    if |lines| > 1 {
      var init := lines[..|lines| - 1];
      var last := lines[|lines| - 1];
      assert JoinLines(lines) == JoinLines(init) + [NewLine] + last;
      assert NewLine !in last;
      SplitLinesAfterLastNewLine(JoinLines(init), last);
      SplitJoinLines(init);
    }
  }

  /** With no newline in `b`, the newline after `a` is the last one. */
  lemma SplitLinesAfterLastNewLine(a: seq<byte>, b: seq<byte>)
    requires LastIndexByte(b, NewLine) < 0
    ensures SplitLines(a + [NewLine] + b) == SplitLines(a) + [b]
  {
    var x := a + [NewLine];
    LastIndexByteAppend(x, b, NewLine);
    LastIndexByteAppend(a, [NewLine], NewLine);
    SplitLinesAtLast(x + b, |a|);
    AppendSlices(a, [NewLine] + b, 0);
    AppendSlices(x, b, 0);
    assert a + [NewLine] + b == a + ([NewLine] + b);
  }

  /** With a newline in `b`, the last one of `b` is the last one. */
  lemma SplitLinesBeforeLastNewLine(a: seq<byte>, b: seq<byte>, j: int)
    requires j == LastIndexByte(b, NewLine) && j >= 0
    ensures SplitLines(a + [NewLine] + b) == SplitLines(a + [NewLine] + b[..j]) + [b[j + 1..]]
  {
    var x := a + [NewLine];
    LastIndexByteAppend(x, b, NewLine);
    AppendSlices(x, b, j);
    AppendSlices(x, b, j + 1);
    SplitLinesAtLastParts(x + b, |x| + j, x + b[..j], b[j + 1..]);
  }

  /** SplitLinesAtLast, with the two sides of the last newline named. */
  lemma SplitLinesAtLastParts(s: seq<byte>, i: int, before: seq<byte>, after: seq<byte>)
    requires i == LastIndexByte(s, NewLine) && i >= 0
    requires before == s[..i] && after == s[i + 1..]
    ensures SplitLines(s) == SplitLines(before) + [after]
  {
  }

  lemma AppendSlices(x: seq<byte>, y: seq<byte>, j: nat)
    requires j <= |y|
    ensures (x + y)[..|x| + j] == x + y[..j]
    ensures (x + y)[|x| + j..] == y[j..]
  {
  }

  /** A newline splits the line table in two: the lines before it and the lines after it. */
  lemma {:induction false} SplitLinesAppend(a: seq<byte>, b: seq<byte>)
    ensures SplitLines(a + [NewLine] + b) == SplitLines(a) + SplitLines(b)
    decreases |b|
  {
    var j := LastIndexByte(b, NewLine);
    if j < 0 {
      SplitLinesAfterLastNewLine(a, b);
    } else {
      SplitLinesBeforeLastNewLine(a, b, j);
      SplitLinesAppend(a, b[..j]);
    }
  }
}
