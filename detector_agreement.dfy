/** The two comment detectors side by side: the byte-offset one of
    rules/module_attribute_comments.go and the line-table one of
    rules/module_attribute_comment_checker.go. On an attribute position whose
    line number and byte offset agree, they inspect the same line, and they
    answer differently only when that line, trimmed, is a bare `#` or `//`. */
module DetectorAgreement {
  import opened Wrappers
  import opened Bytes
  import ModuleAttributeComments
  import ModuleAttributeCommentChecker

  /** A trimmed line that is only a comment marker. */
  predicate IsBareMarker(t: seq<byte>) {
    t == [Hash] || t == [Slash, Slash]
  }

  /** The byte-offset rule's comment test is the line-table rule's, minus the
      bare markers. */
  lemma DocCommentIsNonBareComment(t: seq<byte>)
    ensures ModuleAttributeComments.IsDocComment(t) <==>
      ModuleAttributeCommentChecker.IsComment(t) && !IsBareMarker(t)
    ensures IsBareMarker(t) ==> ModuleAttributeCommentChecker.IsComment(t)
  {
    if HasPrefix(t, [Hash]) && |t| == 1 {
      assert t == [Hash] by {
        assert t == t[..1];
      }
    } else if HasPrefix(t, [Slash, Slash]) && |t| == 2 {
      assert t == [Slash, Slash] by {
        assert t == t[..2];
      }
      assert t[..1] != [Hash] by {
        assert t[..1][0] == Slash;
      }
    }
  }

  /** The number of newlines in `s`, so that a 1-based line number is one more
      than the newlines before the position. */
  function NewLines(s: seq<byte>): nat {
    multiset(s)[NewLine]
  }

  /** The last piece of the line table is what follows the last newline. */
  lemma SplitLinesLast(s: seq<byte>)
    ensures SplitLines(s)[|SplitLines(s)| - 1] == s[LastIndexByte(s, NewLine) + 1..]
  {
  }

  /** The newlines before `start` are those before the last one, plus that one. */
  lemma NewLinesBeforeLast(b: seq<byte>, e: nat, start: int)
    requires e < start <= |b| && b[e] == NewLine
    requires forall k :: e < k < start ==> b[k] != NewLine
    ensures NewLines(b[..start]) == NewLines(b[..e]) + 1
  {
    assert b[..start] == b[..e] + [NewLine] + b[e + 1..start];
    assert NewLine !in b[e + 1..start];
  }

  /** A sequence is what precedes position `e`, the element there, and what
      follows it. */
  lemma SplitAround(b: seq<byte>, e: nat)
    requires e < |b|
    ensures b == b[..e] + [b[e]] + b[e + 1..]
  {
    assert b[e..] == [b[e]] + b[e + 1..];
    assert b == b[..e] + b[e..];
  }

  /** The line table splits at any newline. */
  lemma SplitLinesAt(b: seq<byte>, e: nat)
    requires e < |b| && b[e] == NewLine
    ensures SplitLines(b) == SplitLines(b[..e]) + SplitLines(b[e + 1..])
  {
    SplitAround(b, e);
    SplitLinesAppend(b[..e], b[e + 1..]);
  }

  /** A position's line and byte offset agree when the line is one more than
      the number of newlines before the offset; from the second line on, both
      detectors inspect the same untrimmed line. */
  lemma SameLineInspected(b: seq<byte>, start: int, line: int)
    requires 0 <= start <= |b|
    requires line == 1 + NewLines(b[..start]) && line >= 2
    ensures ModuleAttributeComments.OffsetInspectable(b, start)
    ensures ModuleAttributeCommentChecker.HasLineAbove(b, line)
    ensures ModuleAttributeCommentChecker.LineAbove(b, line) == ModuleAttributeComments.PreviousLine(b, start)
  {
    assert NewLine in b[..start];
    var bounds := ModuleAttributeComments.PreviousLineBounds(b, start);
    var e := bounds.1;
    NewLinesBeforeLast(b, e, start);
    SplitLinesAt(b, e);
    var head := SplitLines(b[..e]);
    SplitLinesCount(b[..e]);
    assert |head| == line - 1;
    assert SplitLines(b)[line - 2] == head[|head| - 1];
    assert head[|head| - 1] == b[bounds.0..e] by {
      SplitLinesLast(b[..e]);
      assert b[..start][..e] == b[..e];
    }
  }

  /** The newlines in a prefix made of the first `k` newline-free lines, a
      newline and a newline-free indent are the `k` newlines that end those
      lines. */
  lemma NewLinesOfIndentPrefix(lines: seq<seq<byte>>, k: nat, indent: seq<byte>, prefix: seq<byte>)
    requires forall i :: 0 <= i < |lines| ==> NewLine !in lines[i]
    requires 1 <= k < |lines| && indent <= lines[k]
    requires prefix == JoinLines(lines[..k]) + [NewLine] + indent
    ensures NewLines(prefix) == k
  {
    var head: seq<byte> := JoinLines(lines[..k]);
    assert multiset(head)[NewLine] == k - 1 by {
      assert forall i :: 0 <= i < k ==> lines[..k][i] == lines[i];
      JoinLinesNewLines(lines[..k]);
    }
    assert NewLine !in indent by {
      assert forall i :: 0 <= i < |indent| ==> indent[i] == lines[k][i];
    }
    assert multiset(prefix) == multiset(head) + multiset{NewLine} + multiset(indent);
  }

  /** For a file given as its lines, an attribute indented by `indent` on the
      1-based line `k + 1` starts at byte `start`, a position consistent with
      that line number; the byte-offset detector there inspects line `k`
      (1-based) and nothing else. */
  lemma HasCommentBeforeOffsetOfLines(lines: seq<seq<byte>>, k: nat, indent: seq<byte>, start: int)
    requires forall i :: 0 <= i < |lines| ==> NewLine !in lines[i]
    requires 1 <= k < |lines| && indent <= lines[k]
    requires start == |JoinLines(lines[..k])| + 1 + |indent|
    ensures 0 <= start <= |JoinLines(lines)|
    ensures k + 1 == 1 + NewLines(JoinLines(lines)[..start])
    ensures ModuleAttributeComments.OffsetInspectable(JoinLines(lines), start)
    ensures ModuleAttributeComments.HasCommentBeforeOffset(Some(JoinLines(lines)), start)
            == ModuleAttributeComments.IsDocComment(TrimSpace(lines[k - 1]))
  {
    var b: seq<byte> := JoinLines(lines);
    JoinLinesIndentPrefix(lines, k, indent);
    NewLinesOfIndentPrefix(lines, k, indent, b[..start]);
    SplitJoinLines(lines);
    OffsetOnLine(b, start, k, lines);
  }

  /** At a byte offset after `k` newlines, the byte-offset detector reads
      entry `k - 1` of the line table. */
  lemma OffsetOnLine(b: seq<byte>, start: int, k: nat, table: seq<seq<byte>>)
    requires 0 <= start <= |b| && 1 <= k && NewLines(b[..start]) == k
    requires SplitLines(b) == table
    ensures k < |table|
    ensures ModuleAttributeComments.OffsetInspectable(b, start)
    ensures ModuleAttributeComments.HasCommentBeforeOffset(Some(b), start)
            == ModuleAttributeComments.IsDocComment(TrimSpace(table[k - 1]))
  {
    SameLineInspected(b, start, k + 1);
    var t := ModuleAttributeComments.PreviousLine(b, start);
    assert t == table[k - 1];
  }

  /** On a consistent position from the second line on: whenever the
      byte-offset detector finds a comment, so does the line-table one, and
      the line-table one finds one that the byte-offset one does not exactly
      when the line above, trimmed, is a bare `#` or `//`. */
  lemma DetectorsAgree(b: seq<byte>, start: int, line: int)
    requires 0 <= start <= |b|
    requires line == 1 + NewLines(b[..start]) && line >= 2
    ensures ModuleAttributeComments.OffsetInspectable(b, start)
    ensures ModuleAttributeComments.HasCommentBeforeOffset(Some(b), start) ==>
      ModuleAttributeCommentChecker.HasCommentBeforeLine(Some(b), line)
    ensures ModuleAttributeCommentChecker.HasCommentBeforeLine(Some(b), line)
              && !ModuleAttributeComments.HasCommentBeforeOffset(Some(b), start)
      <==> IsBareMarker(TrimSpace(ModuleAttributeComments.PreviousLine(b, start)))
  {
    SameLineInspected(b, start, line);
    var t := TrimSpace(ModuleAttributeComments.PreviousLine(b, start));
    DocCommentIsNonBareComment(t);
    assert ModuleAttributeComments.HasCommentBeforeOffset(Some(b), start) == ModuleAttributeComments.IsDocComment(t);
    assert ModuleAttributeCommentChecker.HasCommentBeforeLine(Some(b), line) == ModuleAttributeCommentChecker.IsComment(t);
  }

  /** Both detectors answer false for a file that is missing. */
  lemma MissingFileHasNoComment(start: int, line: int)
    ensures !ModuleAttributeComments.HasCommentBeforeOffset(None, start)
    ensures !ModuleAttributeCommentChecker.HasCommentBeforeLine(None, line)
  {
  }

  /** A file whose first line is `#`: the attribute at byte 2 is on line 2,
      and the line above it is that `#`. */
  lemma MarkerFirstLine(b: seq<byte>)
    requires |b| >= 2 && b[0] == Hash && b[1] == NewLine
    ensures NewLines(b[..2]) == 1
    ensures ModuleAttributeComments.OffsetInspectable(b, 2)
    ensures ModuleAttributeComments.PreviousLine(b, 2) == [Hash]
  {
    assert b[..2] == [Hash, NewLine];
    assert multiset(b[..2]) == multiset{Hash, NewLine};
    assert ModuleAttributeComments.PreviousLineBounds(b, 2) == (0, 1);
  }

  /** A bare `#` has nothing to trim. */
  lemma TrimSpaceMarker(t: seq<byte>)
    requires t == [Hash]
    ensures TrimSpace(t) == t
  {
    TrimSpaceOfTrimmed(t);
  }

  /** The disagreement happens: in any file whose first line is `#`, for an
      attribute at the start of line 2 (byte 2), only the line-table detector
      sees a comment. */
  lemma BareMarkerDisagreement(b: seq<byte>)
    requires |b| >= 2 && b[0] == Hash && b[1] == NewLine
    ensures ModuleAttributeComments.OffsetInspectable(b, 2)
    ensures ModuleAttributeCommentChecker.HasCommentBeforeLine(Some(b), 2)
    ensures !ModuleAttributeComments.HasCommentBeforeOffset(Some(b), 2)
  {
    MarkerFirstLine(b);
    TrimSpaceMarker(ModuleAttributeComments.PreviousLine(b, 2));
    DetectorsAgree(b, 2, 2);
  }
}
