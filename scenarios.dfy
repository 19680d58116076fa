/** The "multiple attributes - mixed comments" case of both rules' tests, on
    the tests' own file: one module "example" with a commented instance_type,
    an uncommented count and a commented name. Each detector's answers are
    derived from the file's bytes, and each rule emits one issue, for count,
    and returns no error. */
module Scenarios {
  import opened Wrappers
  import opened Bytes
  import opened Tflint
  import opened Config
  import opened Format
  import ModuleAttributeComments
  import ModuleAttributeCommentChecker
  import DetectorAgreement

  /** The module block of the test file, with its three attributes' ranges. */
  function ExampleBlock(instanceType: Range, count: Range, name: Range): Block {
    Block("example", map["instance_type" := instanceType, "count" := count, "name" := name])
  }

  /** The host for the test: one file, nothing fails. */
  function TestRunner(block: Block, filename: string, content: seq<byte>): Runner {
    Runner(Ok([block]), map[filename := content], {}, false, None)
  }

  /** The two spaces that indent the attributes in the tests' file. */
  const Indent: seq<byte> := [32, 32]

  /** The texts of the tests' file, one per line, without indentation. */
  const ModuleHeader: seq<byte> := [109, 111, 100, 117, 108, 101, 32, 34, 101, 120, 97, 109, 112, 108, 101, 34, 32, 123] // module "example" {
  const SourceLine: seq<byte> := [115, 111, 117, 114, 99, 101, 32, 61, 32, 34, 46, 47, 109, 111, 100, 117, 108, 101, 115, 47, 101, 120, 97, 109, 112, 108, 101, 34] // source = "./modules/example"
  const InstanceTypeComment: seq<byte> := [35, 32, 67, 111, 109, 109, 101, 110, 116, 32, 102, 111, 114, 32, 105, 110, 115, 116, 97, 110, 99, 101, 95, 116, 121, 112, 101] // # Comment for instance_type
  const InstanceTypeLine: seq<byte> := [105, 110, 115, 116, 97, 110, 99, 101, 95, 116, 121, 112, 101, 32, 61, 32, 34, 116, 50, 46, 109, 105, 99, 114, 111, 34] // instance_type = "t2.micro"
  const CountLine: seq<byte> := [99, 111, 117, 110, 116, 32, 61, 32, 53] // count = 5
  const NameComment: seq<byte> := [35, 32, 67, 111, 109, 109, 101, 110, 116, 32, 102, 111, 114, 32, 110, 97, 109, 101] // # Comment for name
  const NameLine: seq<byte> := [110, 97, 109, 101, 32, 61, 32, 34, 116, 101, 115, 116, 34] // name = "test"
  const BlockEnd: seq<byte> := [125] // }

  /** The lines of the tests' file. Its content starts with a newline, so
      line 1 is empty and the module header is line 2; instance_type, count and
      name are on lines 5, 6 and 8, at bytes 83, 112 and 145. */
  function MixedLines(): seq<seq<byte>> {
    [ [],
      ModuleHeader,
      Indent + SourceLine,
      Indent + InstanceTypeComment,
      Indent + InstanceTypeLine,
      Indent + CountLine,
      Indent + NameComment,
      Indent + NameLine,
      BlockEnd ]
  }

  /** The bytes of the tests' file. */
  function MixedContent(): seq<byte> {
    JoinLines(MixedLines())
  }

  /** The file has nine lines, none of which holds a newline. */
  lemma MixedLinesNewLineFree(lines: seq<seq<byte>>)
    requires lines == MixedLines()
    ensures |lines| == 9
    ensures forall k :: 0 <= k < |lines| ==> NewLine !in lines[k]
  {
    forall k | 0 <= k < |lines|
      ensures NewLine !in lines[k]
    {
      assert NewLine !in Indent;
      if k == 1 {
        assert NewLine !in ModuleHeader;
      } else if k == 2 {
        assert NewLine !in SourceLine;
      } else if k == 3 {
        assert NewLine !in InstanceTypeComment;
      } else if k == 4 {
        assert NewLine !in InstanceTypeLine;
      } else if k == 5 {
        assert NewLine !in CountLine;
      } else if k == 6 {
        assert NewLine !in NameComment;
      } else if k == 7 {
        assert NewLine !in NameLine;
      }
    }
  }

  /** An indented line trims to its text when the text has no whitespace at
      either end. */
  lemma TrimIndented(line: seq<byte>, text: seq<byte>)
    requires line == Indent + text && Trimmed(text)
    ensures TrimSpace(line) == text
  {
    assert line == Indent + text + [];
    TrimSpacePadded(Indent, text, []);
  }

  /** An indented `#` line with text after the marker is a comment for both
      detectors. */
  lemma HashCommentLine(line: seq<byte>, text: seq<byte>)
    requires line == Indent + text && |text| > 1 && text[0] == Hash && !IsSpace(text[|text| - 1])
    ensures ModuleAttributeComments.IsDocComment(TrimSpace(line))
    ensures ModuleAttributeCommentChecker.IsComment(TrimSpace(line))
  {
    TrimIndented(line, text);
    assert text[..1] == [Hash];
  }

  /** An indented line that starts with neither marker is a comment for
      neither detector. */
  lemma UncommentedLine(line: seq<byte>, text: seq<byte>)
    requires line == Indent + text && text != [] && !IsSpace(text[0]) && !IsSpace(text[|text| - 1])
    requires text[0] != Hash && text[0] != Slash
    ensures !ModuleAttributeComments.IsDocComment(TrimSpace(line))
    ensures !ModuleAttributeCommentChecker.IsComment(TrimSpace(line))
  {
    TrimIndented(line, text);
    assert text[..1] != [Hash] by {
      assert text[..1][0] == text[0];
    }
    if |text| >= 2 {
      assert text[..2] != [Slash, Slash] by {
        assert text[..2][0] == text[0];
      }
    }
  }

  /** Line 4 of the file, above instance_type, is a comment for both detectors. */
  lemma MixedLineAboveInstanceType(lines: seq<seq<byte>>)
    requires lines == MixedLines()
    ensures |lines| == 9
    ensures ModuleAttributeComments.IsDocComment(TrimSpace(lines[3]))
    ensures ModuleAttributeCommentChecker.IsComment(TrimSpace(lines[3]))
  {
    HashCommentLine(lines[3], InstanceTypeComment);
  }

  /** Line 5 of the file, above count, is a comment for neither detector. */
  lemma MixedLineAboveCount(lines: seq<seq<byte>>)
    requires lines == MixedLines()
    ensures |lines| == 9
    ensures !ModuleAttributeComments.IsDocComment(TrimSpace(lines[4]))
    ensures !ModuleAttributeCommentChecker.IsComment(TrimSpace(lines[4]))
  {
    UncommentedLine(lines[4], InstanceTypeLine);
  }

  /** Line 7 of the file, above name, is a comment for both detectors. */
  lemma MixedLineAboveName(lines: seq<seq<byte>>)
    requires lines == MixedLines()
    ensures |lines| == 9
    ensures ModuleAttributeComments.IsDocComment(TrimSpace(lines[6]))
    ensures ModuleAttributeCommentChecker.IsComment(TrimSpace(lines[6]))
  {
    HashCommentLine(lines[6], NameComment);
  }

  /** Lines 5, 6 and 8 start after 80, 109 and 142 bytes of the lines above
      them and a newline. */
  lemma MixedLinesOffsets(lines: seq<seq<byte>>)
    requires lines == MixedLines()
    ensures |lines| == 9
    ensures |JoinLines(lines[..4])| == 80
    ensures |JoinLines(lines[..5])| == 109
    ensures |JoinLines(lines[..7])| == 142
  {
    assert lines[..1] == [[]];
    JoinLinesTake(lines, 1);
    JoinLinesTake(lines, 2);
    JoinLinesTake(lines, 3);
    JoinLinesTake(lines, 4);
    JoinLinesTake(lines, 5);
    JoinLinesTake(lines, 6);
  }

  lemma PlainNames()
    ensures Plain("example") && Plain("instance_type") && Plain("count") && Plain("name")
  {
  }

  /** The iterations of one block and three configured items. */
  lemma VisitsOfThree<C>(block: Block, items: seq<C>)
    requires |items| == 3
    ensures Visits([block], items) == [Visit(block, items[0]), Visit(block, items[1]), Visit(block, items[2])]
  {
    assert [block][1..] == [];
    assert Visits([block], items) == BlockVisits(block, items) + [];
  }

  /** The test's expected message for count, from the line-table rule. */
  lemma LineCountMessage()
    requires Plain("count") && Plain("example")
    ensures ModuleAttributeCommentChecker.IssueMessage("count", "example")
            == "attribute " + "\"count\"" + " in module " + "\"example\"" + " should have a comment"
  {
    assert Quote("count") == "\"count\"";
    assert Quote("example") == "\"example\"";
  }

  /** The test's expected message for count, from the byte-offset rule with an
      empty configured message: the ". " separator stays. */
  lemma ByteCountMessage()
    requires Plain("count") && Plain("example")
    ensures ModuleAttributeComments.IssueMessage("count", "example", "")
            == "\"count\"" + " in module " + "\"example\"" + " should have a comment. "
  {
    assert Quote("count") == "\"count\"";
    assert Quote("example") == "\"example\"";
  }

  /** One module and three configured names, of which only the second is
      reported: that one issue is all the line-table rule reports. */
  lemma LineViolationsOfThree(block: Block, n0: string, n1: string, n2: string, runner: Runner, issue: Issue)
    requires ModuleAttributeCommentChecker.Ready(Visit(block, n0))
    requires ModuleAttributeCommentChecker.Ready(Visit(block, n1))
    requires ModuleAttributeCommentChecker.Ready(Visit(block, n2))
    requires ModuleAttributeCommentChecker.Report(Visit(block, n0), runner) == []
    requires ModuleAttributeCommentChecker.Report(Visit(block, n1), runner) == [issue]
    requires ModuleAttributeCommentChecker.Report(Visit(block, n2), runner) == []
    ensures ModuleAttributeCommentChecker.PairsReady([block], [n0, n1, n2])
    ensures ModuleAttributeCommentChecker.Violations([block], [n0, n1, n2], runner) == [issue]
  {
    var vs := [Visit(block, n0), Visit(block, n1), Visit(block, n2)];
    VisitsOfThree(block, [n0, n1, n2]);
    assert ModuleAttributeCommentChecker.Reports(vs[2..], runner) == [] by {
      assert vs[2..][1..] == [];
    }
    assert ModuleAttributeCommentChecker.Reports(vs[1..], runner) == [issue] by {
      assert vs[1..][1..] == vs[2..];
    }
  }

  /** The same for the byte-offset rule. */
  lemma ByteViolationsOfThree(block: Block, rules: seq<CommentRule>, runner: Runner, issue: Issue)
    requires |rules| == 3
    requires ModuleAttributeComments.Ready(Visit(block, rules[0]), runner)
    requires ModuleAttributeComments.Ready(Visit(block, rules[1]), runner)
    requires ModuleAttributeComments.Ready(Visit(block, rules[2]), runner)
    requires ModuleAttributeComments.Report(Visit(block, rules[0]), runner) == []
    requires ModuleAttributeComments.Report(Visit(block, rules[1]), runner) == [issue]
    requires ModuleAttributeComments.Report(Visit(block, rules[2]), runner) == []
    ensures ModuleAttributeComments.PairsReady([block], rules, runner)
    ensures ModuleAttributeComments.Violations([block], rules, runner) == [issue]
  {
    var vs := [Visit(block, rules[0]), Visit(block, rules[1]), Visit(block, rules[2])];
    VisitsOfThree(block, rules);
    assert ModuleAttributeComments.Reports(vs[2..], runner) == [] by {
      assert vs[2..][1..] == [];
    }
    assert ModuleAttributeComments.Reports(vs[1..], runner) == [issue] by {
      assert vs[1..][1..] == vs[2..];
    }
  }

  /** In the tests' file the line-table detector finds comments above lines
      5 and 8 and none above line 6. */
  lemma LineRuleMixedDetector(content: seq<byte>, lines: seq<seq<byte>>)
    requires lines == MixedLines() && content == JoinLines(lines)
    ensures ModuleAttributeCommentChecker.HasCommentBeforeLine(Some(content), 5)
    ensures !ModuleAttributeCommentChecker.HasCommentBeforeLine(Some(content), 6)
    ensures ModuleAttributeCommentChecker.HasCommentBeforeLine(Some(content), 8)
  {
    MixedLinesNewLineFree(lines);
    MixedLineAboveInstanceType(lines);
    MixedLineAboveCount(lines);
    MixedLineAboveName(lines);
    SplitJoinLines(lines);
    ModuleAttributeCommentChecker.HasCommentBeforeLineAt(content, lines, 5);
    ModuleAttributeCommentChecker.HasCommentBeforeLineAt(content, lines, 6);
    ModuleAttributeCommentChecker.HasCommentBeforeLineAt(content, lines, 8);
  }

  /** Lines 5, 6 and 8 of the tests' file, where instance_type, count and
      name sit, are indented by two spaces. */
  lemma MixedLinesIndented(lines: seq<seq<byte>>)
    requires lines == MixedLines()
    ensures |lines| == 9
    ensures Indent <= lines[4] && Indent <= lines[5] && Indent <= lines[7]
  {
  }

  /** The byte-offset detector's answers for any nine newline-free lines laid
      out like the tests' file: attributes indented by two spaces on lines 5,
      6 and 8, a doc comment above the first and the last. */
  lemma ByteMixedOfLayout(content: seq<byte>, lines: seq<seq<byte>>)
    requires |lines| == 9 && forall i :: 0 <= i < |lines| ==> NewLine !in lines[i]
    requires Indent <= lines[4] && Indent <= lines[5] && Indent <= lines[7]
    requires |JoinLines(lines[..4])| == 80 && |JoinLines(lines[..5])| == 109 && |JoinLines(lines[..7])| == 142
    requires ModuleAttributeComments.IsDocComment(TrimSpace(lines[3]))
    requires !ModuleAttributeComments.IsDocComment(TrimSpace(lines[4]))
    requires ModuleAttributeComments.IsDocComment(TrimSpace(lines[6]))
    requires content == JoinLines(lines)
    ensures ModuleAttributeComments.OffsetInspectable(content, 83)
    ensures ModuleAttributeComments.OffsetInspectable(content, 112)
    ensures ModuleAttributeComments.OffsetInspectable(content, 145)
    ensures ModuleAttributeComments.HasCommentBeforeOffset(Some(content), 83)
    ensures !ModuleAttributeComments.HasCommentBeforeOffset(Some(content), 112)
    ensures ModuleAttributeComments.HasCommentBeforeOffset(Some(content), 145)
  {
    DetectorAgreement.HasCommentBeforeOffsetOfLines(lines, 4, Indent, 83);
    DetectorAgreement.HasCommentBeforeOffsetOfLines(lines, 5, Indent, 112);
    DetectorAgreement.HasCommentBeforeOffsetOfLines(lines, 7, Indent, 145);
  }

  /** In the tests' file the byte-offset detector can inspect bytes 83, 112
      and 145, where instance_type, count and name start, and finds comments
      above the first and the last only. */
  lemma ByteRuleMixedDetector(content: seq<byte>, lines: seq<seq<byte>>)
    requires lines == MixedLines() && content == JoinLines(lines)
    ensures ModuleAttributeComments.OffsetInspectable(content, 83)
    ensures ModuleAttributeComments.OffsetInspectable(content, 112)
    ensures ModuleAttributeComments.OffsetInspectable(content, 145)
    ensures ModuleAttributeComments.HasCommentBeforeOffset(Some(content), 83)
    ensures !ModuleAttributeComments.HasCommentBeforeOffset(Some(content), 112)
    ensures ModuleAttributeComments.HasCommentBeforeOffset(Some(content), 145)
  {
    MixedLinesNewLineFree(lines);
    MixedLinesIndented(lines);
    MixedLinesOffsets(lines);
    MixedLineAboveInstanceType(lines);
    MixedLineAboveCount(lines);
    MixedLineAboveName(lines);
    ByteMixedOfLayout(content, lines);
  }

  /** The line-table rule reports an attribute whose file is readable exactly
      when the detector finds no comment above its line. */
  lemma LineReportAt(v: Visit<string>, runner: Runner, content: seq<byte>)
    requires Plain(v.item) && Plain(v.block.moduleName) && v.item in v.block.attributes
    requires runner.files == map[v.block.attributes[v.item].filename := content]
    ensures ModuleAttributeCommentChecker.Ready(v)
    ensures ModuleAttributeCommentChecker.Report(v, runner)
            == if ModuleAttributeCommentChecker.HasCommentBeforeLine(Some(content), v.block.attributes[v.item].start.line)
               then [] else [ModuleAttributeCommentChecker.IssueFor(v)]
  {
    assert runner.File(v.block.attributes[v.item].filename) == Some(content);
  }

  /** With the detector's answers on lines 5, 6 and 8, the line-table rule
      reports count and neither of the others. */
  lemma LineRuleMixedReports(content: seq<byte>, filename: string, instanceType: Range, count: Range, name: Range)
    requires instanceType.filename == filename && instanceType.start.line == 5
    requires count.filename == filename && count.start.line == 6
    requires name.filename == filename && name.start.line == 8
    requires ModuleAttributeCommentChecker.HasCommentBeforeLine(Some(content), 5)
    requires !ModuleAttributeCommentChecker.HasCommentBeforeLine(Some(content), 6)
    requires ModuleAttributeCommentChecker.HasCommentBeforeLine(Some(content), 8)
    ensures var block := ExampleBlock(instanceType, count, name);
      && ModuleAttributeCommentChecker.Ready(Visit(block, "instance_type"))
      && ModuleAttributeCommentChecker.Ready(Visit(block, "count"))
      && ModuleAttributeCommentChecker.Ready(Visit(block, "name"))
      && "count" in block.attributes
      && ModuleAttributeCommentChecker.Report(Visit(block, "instance_type"), TestRunner(block, filename, content)) == []
      && ModuleAttributeCommentChecker.Report(Visit(block, "count"), TestRunner(block, filename, content))
         == [ModuleAttributeCommentChecker.IssueFor(Visit(block, "count"))]
      && ModuleAttributeCommentChecker.Report(Visit(block, "name"), TestRunner(block, filename, content)) == []
  {
    var block := ExampleBlock(instanceType, count, name);
    var runner := TestRunner(block, filename, content);
    PlainNames();
    ExampleBlockAttributes(instanceType, count, name);
    LineReportAt(Visit(block, "instance_type"), runner, content);
    LineReportAt(Visit(block, "count"), runner, content);
    LineReportAt(Visit(block, "name"), runner, content);
  }

  /** The issue for count carries the test's expected message and count's range. */
  lemma LineCountIssue(instanceType: Range, count: Range, name: Range)
    ensures var v := Visit(ExampleBlock(instanceType, count, name), "count");
      && ModuleAttributeCommentChecker.Ready(v) && "count" in v.block.attributes
      && ModuleAttributeCommentChecker.IssueFor(v)
         == Issue(ModuleAttributeCommentChecker.RuleName,
                  "attribute " + "\"count\"" + " in module " + "\"example\"" + " should have a comment", count)
  {
    PlainNames();
    ExampleBlockAttributes(instanceType, count, name);
    LineCountMessage();
  }

  /** In any file where the line-table detector finds comments above lines
      5 and 8 and none above line 6, the rule reports only count. */
  lemma LineViolationsOfAnswers(content: seq<byte>, filename: string, instanceType: Range, count: Range, name: Range)
    requires instanceType.filename == filename && instanceType.start.line == 5
    requires count.filename == filename && count.start.line == 6
    requires name.filename == filename && name.start.line == 8
    requires ModuleAttributeCommentChecker.HasCommentBeforeLine(Some(content), 5)
    requires !ModuleAttributeCommentChecker.HasCommentBeforeLine(Some(content), 6)
    requires ModuleAttributeCommentChecker.HasCommentBeforeLine(Some(content), 8)
    ensures ModuleAttributeCommentChecker.PairsReady([ExampleBlock(instanceType, count, name)], ["instance_type", "count", "name"])
    ensures ModuleAttributeCommentChecker.Violations(
              [ExampleBlock(instanceType, count, name)], ["instance_type", "count", "name"],
              TestRunner(ExampleBlock(instanceType, count, name), filename, content))
            == [Issue(ModuleAttributeCommentChecker.RuleName,
                      "attribute " + "\"count\"" + " in module " + "\"example\"" + " should have a comment", count)]
  {
    var block := ExampleBlock(instanceType, count, name);
    LineRuleMixedReports(content, filename, instanceType, count, name);
    LineCountIssue(instanceType, count, name);
    LineViolationsOfThree(block, "instance_type", "count", "name", TestRunner(block, filename, content),
                          ModuleAttributeCommentChecker.IssueFor(Visit(block, "count")));
  }

  /** In the tests' file the line-table rule reports only count, with the
      expected message and count's range. */
  lemma LineRuleMixedViolations(content: seq<byte>, filename: string, instanceType: Range, count: Range, name: Range)
    requires content == MixedContent()
    requires instanceType.filename == filename && instanceType.start.line == 5
    requires count.filename == filename && count.start.line == 6
    requires name.filename == filename && name.start.line == 8
    ensures ModuleAttributeCommentChecker.PairsReady([ExampleBlock(instanceType, count, name)], ["instance_type", "count", "name"])
    ensures ModuleAttributeCommentChecker.Violations(
              [ExampleBlock(instanceType, count, name)], ["instance_type", "count", "name"],
              TestRunner(ExampleBlock(instanceType, count, name), filename, content))
            == [Issue(ModuleAttributeCommentChecker.RuleName,
                      "attribute " + "\"count\"" + " in module " + "\"example\"" + " should have a comment", count)]
  {
    LineRuleMixedDetector(content, MixedLines());
    LineViolationsOfAnswers(content, filename, instanceType, count, name);
  }

  /** The line-table rule on the tests' file, configured through SetConfig
      with the test's attribute_names, emits exactly the expected issue for
      count and no error. */
  method LineRuleMixedComments(filename: string, instanceType: Range, count: Range, name: Range)
    returns (issues: seq<Issue>, err: Option<Error>)
    requires instanceType.filename == filename && instanceType.start.line == 5
    requires count.filename == filename && count.start.line == 6
    requires name.filename == filename && name.start.line == 8
    ensures issues == [Issue(ModuleAttributeCommentChecker.RuleName,
                             "attribute " + "\"count\"" + " in module " + "\"example\"" + " should have a comment", count)]
    ensures err.None?
  {
    var content := MixedContent();
    var block := ExampleBlock(instanceType, count, name);
    var runner := TestRunner(block, filename, content);
    var names := ["instance_type", "count", "name"];
    var rule := new ModuleAttributeCommentChecker.ModuleAttributeCommentCheckerRule();
    rule.SetConfig(names);
    LineRuleMixedViolations(content, filename, instanceType, count, name);
    issues, err := rule.Check(runner);
    ModuleAttributeCommentChecker.EvaluateIsPrefix(names, runner);
  }

  /** The three attributes of the example block and their ranges. */
  lemma ExampleBlockAttributes(instanceType: Range, count: Range, name: Range)
    ensures "instance_type" in ExampleBlock(instanceType, count, name).attributes
    ensures "count" in ExampleBlock(instanceType, count, name).attributes
    ensures "name" in ExampleBlock(instanceType, count, name).attributes
    ensures ExampleBlock(instanceType, count, name).attributes["instance_type"] == instanceType
    ensures ExampleBlock(instanceType, count, name).attributes["count"] == count
    ensures ExampleBlock(instanceType, count, name).attributes["name"] == name
  {
  }

  /** The byte-offset rule reports an attribute whose file is readable exactly
      when the detector finds no comment above it. */
  lemma ByteReportAt(v: Visit<CommentRule>, runner: Runner, content: seq<byte>)
    requires Plain(v.item.name) && Plain(v.block.moduleName) && v.item.name in v.block.attributes
    requires runner.files == map[v.block.attributes[v.item.name].filename := content]
    requires ModuleAttributeComments.OffsetInspectable(content, v.block.attributes[v.item.name].start.byteOffset)
    ensures ModuleAttributeComments.Ready(v, runner)
    ensures ModuleAttributeComments.Report(v, runner)
            == if ModuleAttributeComments.HasCommentBeforeOffset(Some(content), v.block.attributes[v.item.name].start.byteOffset)
               then [] else [ModuleAttributeComments.IssueFor(v)]
  {
    assert runner.File(v.block.attributes[v.item.name].filename) == Some(content);
  }

  /** In any file where the byte-offset detector finds comments above
      instance_type and name and none above count, the rule reports only count. */
  lemma ByteViolationsOfAnswers(content: seq<byte>, filename: string, instanceType: Range, count: Range, name: Range)
    requires instanceType.filename == filename && count.filename == filename && name.filename == filename
    requires ModuleAttributeComments.OffsetInspectable(content, instanceType.start.byteOffset)
    requires ModuleAttributeComments.OffsetInspectable(content, count.start.byteOffset)
    requires ModuleAttributeComments.OffsetInspectable(content, name.start.byteOffset)
    requires ModuleAttributeComments.HasCommentBeforeOffset(Some(content), instanceType.start.byteOffset)
    requires !ModuleAttributeComments.HasCommentBeforeOffset(Some(content), count.start.byteOffset)
    requires ModuleAttributeComments.HasCommentBeforeOffset(Some(content), name.start.byteOffset)
    ensures ModuleAttributeComments.PairsReady([ExampleBlock(instanceType, count, name)], MixedRules(),
              TestRunner(ExampleBlock(instanceType, count, name), filename, content))
    ensures ModuleAttributeComments.Violations(
              [ExampleBlock(instanceType, count, name)], MixedRules(),
              TestRunner(ExampleBlock(instanceType, count, name), filename, content))
            == [Issue(ModuleAttributeComments.RuleName, "\"count\"" + " in module " + "\"example\"" + " should have a comment. ", count)]
  {
    var block := ExampleBlock(instanceType, count, name);
    var runner := TestRunner(block, filename, content);
    var rules := MixedRules();
    var v0, v1, v2 := Visit(block, rules[0]), Visit(block, rules[1]), Visit(block, rules[2]);
    var issue := Issue(ModuleAttributeComments.RuleName, "\"count\"" + " in module " + "\"example\"" + " should have a comment. ", count);
    PlainNames();
    ExampleBlockAttributes(instanceType, count, name);
    ByteReportAt(v0, runner, content);
    ByteReportAt(v2, runner, content);
    assert ModuleAttributeComments.Report(v0, runner) == [];
    ByteReportAt(v1, runner, content);
    assert ModuleAttributeComments.Report(v1, runner) == [issue] by {
      ByteCountMessage();
    }
    assert ModuleAttributeComments.Report(v2, runner) == [];
    ByteViolationsOfThree(block, rules, runner, issue);
  }

  /** In the tests' file the byte-offset rule reports only count, with the
      expected message and count's range. */
  lemma ByteRuleMixedViolations(content: seq<byte>, filename: string, instanceType: Range, count: Range, name: Range)
    requires content == MixedContent()
    requires instanceType.filename == filename && instanceType.start.byteOffset == 83
    requires count.filename == filename && count.start.byteOffset == 112
    requires name.filename == filename && name.start.byteOffset == 145
    ensures ModuleAttributeComments.PairsReady([ExampleBlock(instanceType, count, name)], MixedRules(),
              TestRunner(ExampleBlock(instanceType, count, name), filename, content))
    ensures ModuleAttributeComments.Violations(
              [ExampleBlock(instanceType, count, name)], MixedRules(),
              TestRunner(ExampleBlock(instanceType, count, name), filename, content))
            == [Issue(ModuleAttributeComments.RuleName, "\"count\"" + " in module " + "\"example\"" + " should have a comment. ", count)]
  {
    ByteRuleMixedDetector(content, MixedLines());
    ByteViolationsOfAnswers(content, filename, instanceType, count, name);
  }

  /** The byte-offset rule's configuration in this case: three attributes, no messages. */
  function MixedRules(): seq<CommentRule> {
    [CommentRule("instance_type", ""), CommentRule("count", ""), CommentRule("name", "")]
  }

  /** The byte-offset rule on the tests' file, configured with the three
      attributes and no messages, emits exactly the expected issue for count,
      whose message ends in the ". " separator followed by nothing, and no
      error. */
  method ByteRuleMixedComments(filename: string, instanceType: Range, count: Range, name: Range)
    returns (issues: seq<Issue>, err: Option<Error>)
    requires instanceType.filename == filename && instanceType.start.byteOffset == 83
    requires count.filename == filename && count.start.byteOffset == 112
    requires name.filename == filename && name.start.byteOffset == 145
    ensures issues == [Issue(ModuleAttributeComments.RuleName,
                             "\"count\"" + " in module " + "\"example\"" + " should have a comment. ", count)]
    ensures err.None?
  {
    var content := MixedContent();
    var block := ExampleBlock(instanceType, count, name);
    var runner := TestRunner(block, filename, content);
    var rules := MixedRules();
    ByteRuleMixedViolations(content, filename, instanceType, count, name);
    issues, err := ModuleAttributeComments.Check(Ok(InputCommentRuleConfig(rules)), runner);
    ModuleAttributeComments.EvaluateWithoutHostFailures(rules, runner);
  }
}
