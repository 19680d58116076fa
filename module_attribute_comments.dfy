/** ModuleAttributeCommentsRule (rules/module_attribute_comments.go), the rule
    the plugin registers: every configured attribute present in a module block
    needs a comment on the line directly above it, found by scanning back from
    the attribute's byte offset to the two previous newlines. */
module ModuleAttributeComments {
  import opened Wrappers
  import opened Bytes
  import opened Tflint
  import opened Format
  import opened Config

  /** The rule's name, carried by every issue it emits. */
  const RuleName: string := "module_attribute_comments"

  // ---------------------------------------------------------------------------
  // hasCommentBefore: the byte-offset detector

  /** The offsets hasCommentBefore can inspect without panicking: the slice
      `Bytes[:start]` needs `start <= len(Bytes)`, and the second slice
      `Bytes[:prevLineEnd]` needs a newline before `start` (an attribute on the
      first line of its file makes it `Bytes[:-1]`). */
  predicate OffsetInspectable(content: seq<byte>, start: int) {
    0 <= start <= |content| && NewLine in content[..start]
  }

  /** prevLineStart and prevLineEnd: the line above the attribute is exactly
      the bytes strictly between the last newline before `start` and the
      newline before that one (or the start of the file). */
  function PreviousLineBounds(content: seq<byte>, start: int): (bounds: (nat, nat))
    requires OffsetInspectable(content, start)
    ensures bounds.0 <= bounds.1 < start
    ensures content[bounds.1] == NewLine
    ensures forall k :: bounds.1 < k < start ==> content[k] != NewLine
    ensures forall k :: bounds.0 <= k < bounds.1 ==> content[k] != NewLine
    ensures bounds.0 == 0 || content[bounds.0 - 1] == NewLine
  {
    var before := content[..start];
    var lineEnd := LastIndexByte(before, NewLine);
    var lineStart := LastIndexByte(before[..lineEnd], NewLine) + 1;
    (lineStart, lineEnd)
  }

  /** The untrimmed line above the attribute. */
  function PreviousLine(content: seq<byte>, start: int): seq<byte>
    requires OffsetInspectable(content, start)
  {
    var bounds := PreviousLineBounds(content, start);
    content[bounds.0..bounds.1]
  }

  /** A trimmed line is a comment when it is `#` or `//` followed by at least
      one more byte; a bare marker is not. */
  predicate IsDocComment(line: seq<byte>) {
    (HasPrefix(line, [Hash]) && |line| > 1) || (HasPrefix(line, [Slash, Slash]) && |line| > 2)
  }

  /** hasCommentBefore(attr, file), with `file` None for Go's nil. */
  predicate HasCommentBeforeOffset(file: Option<seq<byte>>, start: int)
    requires file.Some? ==> OffsetInspectable(file.value, start)
  {
    file.Some? && IsDocComment(TrimSpace(PreviousLine(file.value, start)))
  }

  /** The answer depends only on the bytes before the attribute: changing the
      attribute itself or anything after it leaves it unchanged. */
  lemma HasCommentBeforeOffsetLocal(a: seq<byte>, b: seq<byte>, start: int)
    requires OffsetInspectable(a, start)
    requires start <= |b| && a[..start] == b[..start]
    ensures OffsetInspectable(b, start)
    ensures HasCommentBeforeOffset(Some(a), start) == HasCommentBeforeOffset(Some(b), start)
  {
    var bounds := PreviousLineBounds(a, start);
    assert PreviousLineBounds(b, start) == bounds;
    assert a[bounds.0..bounds.1] == a[..start][bounds.0..bounds.1];
    assert b[bounds.0..bounds.1] == b[..start][bounds.0..bounds.1];
  }

  // ---------------------------------------------------------------------------
  // Check: the evaluation loop

  /** The message of an issue: `%q in module %q should have a comment. %s`. */
  function IssueMessage(name: string, moduleName: string, message: string): string
    requires Plain(name) && Plain(moduleName)
  {
    Quote(name) + " in module " + Quote(moduleName) + " should have a comment. " + message
  }

  /** Reads the attribute name, module name and configured message back out of
      an issue message. */
  function ParseIssueMessage(text: string): Option<(string, string, string)> {
    match ReadQuoted(text)
    case None => None
    case Some((name, rest)) =>
      match StripPrefix(rest, " in module ")
      case None => None
      case Some(rest) =>
        match ReadQuoted(rest)
        case None => None
        case Some((moduleName, rest)) =>
          match StripPrefix(rest, " should have a comment. ")
          case None => None
          case Some(message) => Some((name, moduleName, message))
  }

  /** An issue message names its attribute, its module and its configured
      message unambiguously: all three can be read back from it. */
  lemma ParseIssueMessageRoundTrip(name: string, moduleName: string, message: string)
    requires Plain(name) && Plain(moduleName)
    ensures ParseIssueMessage(IssueMessage(name, moduleName, message)) == Some((name, moduleName, message))
  {
    var tail := " should have a comment. " + message;
    var quotedTail := Quote(moduleName) + tail;
    var rest := " in module " + quotedTail;
    assert IssueMessage(name, moduleName, message) == Quote(name) + rest;
    assert ReadQuoted(Quote(name) + rest) == Some((name, rest)) by {
      ReadQuotedQuote(name, rest);
    }
    assert StripPrefix(rest, " in module ") == Some(quotedTail) by {
      StripPrefixAppend(" in module ", quotedTail);
    }
    assert ReadQuoted(quotedTail) == Some((moduleName, tail)) by {
      ReadQuotedQuote(moduleName, tail);
    }
    assert StripPrefix(tail, " should have a comment. ") == Some(message) by {
      StripPrefixAppend(" should have a comment. ", message);
    }
  }

  /** What one iteration needs so that nothing in it panics: a position
      hasCommentBefore can inspect whenever the attribute is present and its
      file exists, and names that `%q` prints between plain quotes. */
  predicate Ready(v: Visit<CommentRule>, runner: Runner) {
    && Plain(v.item.name)
    && Plain(v.block.moduleName)
    && (v.item.name in v.block.attributes && v.block.attributes[v.item.name].filename in runner.files ==>
          OffsetInspectable(runner.files[v.block.attributes[v.item.name].filename],
                            v.block.attributes[v.item.name].start.byteOffset))
  }

  predicate AllReady(vs: seq<Visit<CommentRule>>, runner: Runner) {
    forall k :: 0 <= k < |vs| ==> Ready(vs[k], runner)
  }

  /** Every (module, configured attribute) pair is Ready. */
  predicate PairsReady(blocks: seq<Block>, rules: seq<CommentRule>, runner: Runner) {
    forall i, j :: 0 <= i < |blocks| && 0 <= j < |rules| ==> Ready(Visit(blocks[i], rules[j]), runner)
  }

  /** What Check needs of the host's answers. */
  predicate CheckReady(ruleConfig: Result<InputCommentRuleConfig>, runner: Runner) {
    ruleConfig.Ok? && runner.modules.Ok? ==> PairsReady(runner.modules.value, ruleConfig.value.attributes, runner)
  }

  lemma PairsReadyVisits(blocks: seq<Block>, rules: seq<CommentRule>, runner: Runner)
    requires PairsReady(blocks, rules, runner)
    ensures AllReady(Visits(blocks, rules), runner)
  {
    VisitsMember(blocks, rules);
  }

  /** The issue emitted for an uncommented attribute. */
  function IssueFor(v: Visit<CommentRule>): Issue
    requires Plain(v.item.name) && Plain(v.block.moduleName) && v.item.name in v.block.attributes
  {
    Issue(RuleName, IssueMessage(v.item.name, v.block.moduleName, v.item.message), v.block.attributes[v.item.name])
  }

  /** The issue for an uncommented attribute carries the attribute's range, and
      its message names the attribute, the module and the configured message. */
  lemma IssueForContents(v: Visit<CommentRule>)
    requires Plain(v.item.name) && Plain(v.block.moduleName) && v.item.name in v.block.attributes
    ensures IssueFor(v).rule == RuleName && IssueFor(v).range == v.block.attributes[v.item.name]
    ensures ParseIssueMessage(IssueFor(v).message) == Some((v.item.name, v.block.moduleName, v.item.message))
  {
    ParseIssueMessageRoundTrip(v.item.name, v.block.moduleName, v.item.message);
  }

  /** The configured attribute is present and the line above it is not a comment. */
  predicate Violates(v: Visit<CommentRule>, runner: Runner)
    requires Ready(v, runner)
  {
    && v.item.name in v.block.attributes
    && !HasCommentBeforeOffset(runner.File(v.block.attributes[v.item.name].filename),
                               v.block.attributes[v.item.name].start.byteOffset)
  }

  /** The issue an iteration reports when the host does not fail. */
  function Report(v: Visit<CommentRule>, runner: Runner): seq<Issue>
    requires Ready(v, runner)
  {
    if Violates(v, runner) then [IssueFor(v)] else []
  }

  /** The issues a sequence of iterations reports when the host does not fail. */
  function Reports(vs: seq<Visit<CommentRule>>, runner: Runner): seq<Issue>
    requires AllReady(vs, runner)
  {
    if vs == [] then [] else Report(vs[0], runner) + Reports(vs[1..], runner)
  }

  /** One iteration of the inner loop, with GetFile and EmitIssue errors. */
  function Step(issues: seq<Issue>, v: Visit<CommentRule>, runner: Runner): Outcome
    requires Ready(v, runner)
  {
    if v.item.name !in v.block.attributes then Outcome(issues, None)
    else
      var range := v.block.attributes[v.item.name];
      if range.filename in runner.unreadable then Outcome(issues, Some(FileUnavailable(range.filename)))
      else if HasCommentBeforeOffset(runner.File(range.filename), range.start.byteOffset) then Outcome(issues, None)
      else Emit(issues, IssueFor(v), runner)
  }

  /** The iterations run in order; the first error ends the run. */
  function Run(vs: seq<Visit<CommentRule>>, runner: Runner): Outcome
    requires AllReady(vs, runner)
  {
    if vs == [] then Outcome([], None)
    else
      var before := Run(vs[..|vs| - 1], runner);
      if before.err.Some? then before else Step(before.issues, vs[|vs| - 1], runner)
  }

  /** What Check does, given what DecodeRuleConfig returns and the host's answers. */
  function Evaluate(ruleConfig: Result<InputCommentRuleConfig>, runner: Runner): Outcome
    requires CheckReady(ruleConfig, runner)
  {
    if ruleConfig.Err? then Outcome([], Some(ruleConfig.error))
    else if ruleConfig.value.attributes == [] then Outcome([], None)
    else if runner.modules.Err? then Outcome([], Some(runner.modules.error))
    else
      PairsReadyVisits(runner.modules.value, ruleConfig.value.attributes, runner);
      Run(Visits(runner.modules.value, ruleConfig.value.attributes), runner)
  }

  /** ModuleAttributeCommentsRule.Check: for each module block, for each
      configured attribute, emit an issue when the attribute is present and
      not commented; any host error ends the check at once. */
  method Check(ruleConfig: Result<InputCommentRuleConfig>, runner: Runner) returns (issues: seq<Issue>, err: Option<Error>)
    requires CheckReady(ruleConfig, runner)
    ensures Outcome(issues, err) == Evaluate(ruleConfig, runner)
  {
    issues, err := [], None;
    if ruleConfig.Err? {
      return [], Some(ruleConfig.error);
    }
    var rules := ruleConfig.value.attributes;
    if |rules| == 0 {
      return [], None;
    }
    if runner.modules.Err? {
      return [], Some(runner.modules.error);
    }
    var blocks := runner.modules.value;
    PairsReadyVisits(blocks, rules, runner);
    var i := 0;
    while i < |blocks|
      invariant 0 <= i <= |blocks|
      invariant AllReady(Visits(blocks[..i], rules), runner)
      invariant Run(Visits(blocks[..i], rules), runner) == Outcome(issues, None)
    {
      var block := blocks[i];
      var j := 0;
      assert rules[..0] == [];
      assert VisitedSoFar(blocks, rules, i, 0) == Visits(blocks[..i], rules);
      VisitedSoFarPrefix(blocks, rules, i, 0);
      ghost var done := VisitedSoFar(blocks, rules, i, 0);
      while j < |rules|
        invariant 0 <= j <= |rules|
        invariant done == VisitedSoFar(blocks, rules, i, j)
        invariant done <= Visits(blocks, rules)
        invariant AllReady(done, runner)
        invariant Run(done, runner) == Outcome(issues, None)
      {
        var rule := rules[j];
        ghost var before := issues;
        var next := j + 1;
        ghost var visited := VisitedSoFar(blocks, rules, i, next);
        assert visited == done + [Visit(block, rule)] && visited <= Visits(blocks, rules) by {
          VisitedSoFarNext(blocks, rules, i, j);
          VisitedSoFarPrefix(blocks, rules, i, j + 1);
        }
        assert Ready(Visit(block, rule), runner) by {
          assert Visits(blocks, rules)[|visited| - 1] == Visit(block, rule);
        }
        RunExtend(done, Visit(block, rule), runner, before);
        if rule.name in block.attributes {
          var range := block.attributes[rule.name];
          if range.filename in runner.unreadable {
            err := Some(FileUnavailable(range.filename));
            RunStopsAtError(visited, Visits(blocks, rules), runner);
            return;
          }
          var file := runner.File(range.filename);
          if !HasCommentBeforeOffset(file, range.start.byteOffset) {
            var issue := Issue(RuleName, IssueMessage(rule.name, block.moduleName, rule.message), range);
            if !runner.Accepts(|issues|) {
              err := Some(IssueRejected);
              RunStopsAtError(visited, Visits(blocks, rules), runner);
              return;
            }
            issues := issues + [issue];
          }
        }
        assert Run(visited, runner) == Outcome(issues, None) by {
          assert Step(before, Visit(block, rule), runner) == Outcome(issues, None);
        }
        done := visited;
        j := next;
      }
      VisitedSoFarBlock(blocks, rules, i);
      i := i + 1;
    }
    assert blocks[..|blocks|] == blocks;
  }

  /** A run that has not failed goes on with the next iteration's step. */
  lemma RunExtend(done: seq<Visit<CommentRule>>, v: Visit<CommentRule>, runner: Runner, issues: seq<Issue>)
    requires AllReady(done, runner) && Ready(v, runner)
    requires Run(done, runner) == Outcome(issues, None)
    ensures AllReady((done + [v]), runner)
    ensures Run(done + [v], runner) == Step(issues, v, runner)
  {
    assert (done + [v])[..|done|] == done;
  }

  /** Once a run has failed, running further iterations changes nothing. */
  lemma {:induction false} RunStopsAtError(done: seq<Visit<CommentRule>>, all: seq<Visit<CommentRule>>, runner: Runner)
    requires done <= all && AllReady(all, runner)
    requires AllReady(done, runner) && Run(done, runner).err.Some?
    ensures Run(all, runner) == Run(done, runner)
    decreases |all|
  {
    if |all| > |done| {
      assert done <= all[..|all| - 1];
      RunStopsAtError(done, all[..|all| - 1], runner);
    } else {
      assert all == done;
    }
  }

  // ---------------------------------------------------------------------------
  // What Check reports

  /** The reports of two runs of iterations, one after the other. */
  lemma {:induction false} ReportsAppend(a: seq<Visit<CommentRule>>, b: seq<Visit<CommentRule>>, runner: Runner)
    requires AllReady(a + b, runner)
    ensures AllReady(a, runner) && AllReady(b, runner)
    ensures Reports(a + b, runner) == Reports(a, runner) + Reports(b, runner)
  {
    assert AllReady(a, runner) && AllReady(b, runner) by {
      assert forall k :: 0 <= k < |a| ==> (a + b)[k] == a[k];
      assert forall k :: 0 <= k < |b| ==> (a + b)[|a| + k] == b[k];
    }
    if a != [] {
      assert (a + b)[1..] == a[1..] + b;
      assert (a + b)[0] == a[0];
      ReportsAppend(a[1..], b, runner);
    } else {
      assert a + b == b;
    }
  }

  /** Every reported issue is the issue of a violating iteration. */
  lemma {:induction false} ReportsSound(vs: seq<Visit<CommentRule>>, runner: Runner, issue: Issue)
    requires AllReady(vs, runner) && issue in Reports(vs, runner)
    ensures exists k :: 0 <= k < |vs| && Violates(vs[k], runner) && issue == IssueFor(vs[k])
  {
    if issue !in Report(vs[0], runner) {
      ReportsSound(vs[1..], runner, issue);
      var k :| 0 <= k < |vs[1..]| && Violates(vs[1..][k], runner) && issue == IssueFor(vs[1..][k]);
      assert vs[1..][k] == vs[k + 1];
    }
  }

  /** Every violating iteration's issue is reported. */
  lemma {:induction false} ReportsComplete(vs: seq<Visit<CommentRule>>, runner: Runner, k: nat)
    requires AllReady(vs, runner) && k < |vs| && Violates(vs[k], runner)
    ensures IssueFor(vs[k]) in Reports(vs, runner)
  {
    if k > 0 {
      assert vs[1..][k - 1] == vs[k];
      ReportsComplete(vs[1..], runner, k - 1);
    }
  }

  /** An issue is reported exactly for the iterations that violate the rule. */
  lemma ReportsMember(vs: seq<Visit<CommentRule>>, runner: Runner, issue: Issue)
    requires AllReady(vs, runner)
    ensures issue in Reports(vs, runner) <==>
      exists k :: 0 <= k < |vs| && Violates(vs[k], runner) && issue == IssueFor(vs[k])
  {
    if issue in Reports(vs, runner) {
      ReportsSound(vs, runner, issue);
    }
    if exists k :: 0 <= k < |vs| && Violates(vs[k], runner) && issue == IssueFor(vs[k]) {
      var k :| 0 <= k < |vs| && Violates(vs[k], runner) && issue == IssueFor(vs[k]);
      ReportsComplete(vs, runner, k);
    }
  }

  /** Check's run against the host's failures: what it emits is always a
      prefix of what it would report without them, and all of it when it
      returns no error; an EmitIssue error comes exactly when the sink is full,
      and a GetFile error only for a file the host cannot read. */
  lemma {:induction false} RunAgainstReports(vs: seq<Visit<CommentRule>>, runner: Runner)
    requires AllReady(vs, runner)
    ensures Run(vs, runner).issues <= Reports(vs, runner)
    ensures Run(vs, runner).err.None? ==> Run(vs, runner).issues == Reports(vs, runner)
    ensures runner.sinkCapacity.Some? ==> |Run(vs, runner).issues| <= runner.sinkCapacity.value
    ensures Run(vs, runner).err == Some(IssueRejected) ==> runner.sinkCapacity == Some(|Run(vs, runner).issues|)
    ensures Run(vs, runner).err.Some? && Run(vs, runner).err != Some(IssueRejected) ==>
      Run(vs, runner).err.value.FileUnavailable? && Run(vs, runner).err.value.filename in runner.unreadable
  {
    if vs != [] {
      var init := vs[..|vs| - 1];
      var last := vs[|vs| - 1];
      assert vs == init + [last];
      ReportsAppend(init, [last], runner);
      assert Reports(vs, runner) == Reports(init, runner) + Report(last, runner) by {
        assert Reports([last], runner) == Report(last, runner) + Reports([], runner);
      }
      RunAgainstReports(init, runner);
      var before := Run(init, runner);
      if before.err.None? {
        StepAgainstReport(before.issues, last, runner);
      }
    }
  }

  /** One iteration against the sink: it emits a prefix of its report, all of
      it when it returns no error, and fails only on an unreadable file or a
      full sink. */
  lemma StepAgainstReport(issues: seq<Issue>, v: Visit<CommentRule>, runner: Runner)
    requires Ready(v, runner)
    requires runner.sinkCapacity.Some? ==> |issues| <= runner.sinkCapacity.value
    ensures Step(issues, v, runner).issues <= issues + Report(v, runner)
    ensures Step(issues, v, runner).err.None? ==> Step(issues, v, runner).issues == issues + Report(v, runner)
    ensures runner.sinkCapacity.Some? ==> |Step(issues, v, runner).issues| <= runner.sinkCapacity.value
    ensures Step(issues, v, runner).err == Some(IssueRejected) ==>
      Step(issues, v, runner).issues == issues && runner.sinkCapacity == Some(|issues|)
    ensures Step(issues, v, runner).err.Some? && Step(issues, v, runner).err != Some(IssueRejected) ==>
      Step(issues, v, runner).err.value.FileUnavailable? && Step(issues, v, runner).err.value.filename in runner.unreadable
  {
  }

  /** Without an unreadable file among the attributes it inspects and with a
      sink that accepts everything, a run returns no error. */
  lemma {:induction false} RunWithoutHostFailures(vs: seq<Visit<CommentRule>>, runner: Runner)
    requires AllReady(vs, runner)
    requires runner.sinkCapacity.None?
    requires forall k :: 0 <= k < |vs| && vs[k].item.name in vs[k].block.attributes ==>
      vs[k].block.attributes[vs[k].item.name].filename !in runner.unreadable
    ensures Run(vs, runner).err.None?
  {
    if vs != [] {
      RunWithoutHostFailures(vs[..|vs| - 1], runner);
    }
  }

  /** The issues a check reports when the host does not fail: one per
      (module, configured attribute) pair that violates the rule, modules in
      order and the configured attributes in order within each module. */
  function Violations(blocks: seq<Block>, rules: seq<CommentRule>, runner: Runner): seq<Issue>
    requires PairsReady(blocks, rules, runner)
  {
    PairsReadyVisits(blocks, rules, runner);
    Reports(Visits(blocks, rules), runner)
  }

  /** Every reported issue comes from a violating pair. */
  lemma ViolationsMemberSound(blocks: seq<Block>, rules: seq<CommentRule>, runner: Runner, issue: Issue)
    requires PairsReady(blocks, rules, runner)
    requires issue in Violations(blocks, rules, runner)
    ensures exists i, j :: 0 <= i < |blocks| && 0 <= j < |rules|
              && Violates(Visit(blocks[i], rules[j]), runner) && issue == IssueFor(Visit(blocks[i], rules[j]))
  {
    var vs := Visits(blocks, rules);
    PairsReadyVisits(blocks, rules, runner);
    ReportsSound(vs, runner, issue);
    var k :| 0 <= k < |vs| && Violates(vs[k], runner) && issue == IssueFor(vs[k]);
    VisitsMemberPair(blocks, rules, vs[k]);
  }

  /** Every violating pair is reported. */
  lemma ViolationsMemberComplete(blocks: seq<Block>, rules: seq<CommentRule>, runner: Runner, i: nat, j: nat)
    requires PairsReady(blocks, rules, runner)
    requires i < |blocks| && j < |rules| && Violates(Visit(blocks[i], rules[j]), runner)
    ensures IssueFor(Visit(blocks[i], rules[j])) in Violations(blocks, rules, runner)
  {
    var vs := Visits(blocks, rules);
    PairsReadyVisits(blocks, rules, runner);
    VisitsContainPair(blocks, rules, i, j);
    var k :| 0 <= k < |vs| && vs[k] == Visit(blocks[i], rules[j]);
    ReportsComplete(vs, runner, k);
  }

  /** Exactly the violating pairs are reported: an issue is among the
      violations iff some module has the configured attribute, the line above
      it is not a comment, and the issue is the one for that pair. Absent
      attributes are therefore skipped. */
  lemma ViolationsMember(blocks: seq<Block>, rules: seq<CommentRule>, runner: Runner, issue: Issue)
    requires PairsReady(blocks, rules, runner)
    ensures issue in Violations(blocks, rules, runner) <==>
      exists i, j :: 0 <= i < |blocks| && 0 <= j < |rules|
        && Violates(Visit(blocks[i], rules[j]), runner) && issue == IssueFor(Visit(blocks[i], rules[j]))
  {
    if issue in Violations(blocks, rules, runner) {
      ViolationsMemberSound(blocks, rules, runner, issue);
    }
    if exists i, j :: 0 <= i < |blocks| && 0 <= j < |rules|
        && Violates(Visit(blocks[i], rules[j]), runner) && issue == IssueFor(Visit(blocks[i], rules[j])) {
      var i, j :| 0 <= i < |blocks| && 0 <= j < |rules|
        && Violates(Visit(blocks[i], rules[j]), runner) && issue == IssueFor(Visit(blocks[i], rules[j]));
      ViolationsMemberComplete(blocks, rules, runner, i, j);
    }
  }

  /** Module order: the issues for earlier modules come first. */
  lemma ViolationsModuleOrder(a: seq<Block>, b: seq<Block>, rules: seq<CommentRule>, runner: Runner)
    requires PairsReady(a + b, rules, runner)
    ensures PairsReady(a, rules, runner) && PairsReady(b, rules, runner)
    ensures Violations(a + b, rules, runner) == Violations(a, rules, runner) + Violations(b, rules, runner)
  {
    assert forall i :: 0 <= i < |a| ==> (a + b)[i] == a[i];
    assert forall i :: 0 <= i < |b| ==> (a + b)[|a| + i] == b[i];
    VisitsAppend(a, b, rules);
    PairsReadyVisits(a + b, rules, runner);
    ReportsAppend(Visits(a, rules), Visits(b, rules), runner);
  }

  /** Configuration order: within one module, the issues follow the order of
      the configured attributes. */
  lemma ViolationsConfigOrder(block: Block, a: seq<CommentRule>, b: seq<CommentRule>, runner: Runner)
    requires PairsReady([block], a + b, runner)
    ensures PairsReady([block], a, runner) && PairsReady([block], b, runner)
    ensures Violations([block], a + b, runner) == Violations([block], a, runner) + Violations([block], b, runner)
  {
    assert forall j :: 0 <= j < |a| ==> (a + b)[j] == a[j];
    assert forall j :: 0 <= j < |b| ==> (a + b)[|a| + j] == b[j];
    SingleBlockVisits(block, a);
    SingleBlockVisits(block, b);
    SingleBlockVisits(block, a + b);
    BlockVisitsAppend(block, a, b);
    PairsReadyVisits([block], a + b, runner);
    ReportsAppend(BlockVisits(block, a), BlockVisits(block, b), runner);
  }

  lemma SingleBlockVisits(block: Block, rules: seq<CommentRule>)
    ensures Visits([block], rules) == BlockVisits(block, rules)
  {
    assert [block][1..] == [];
    assert Visits([block], rules) == BlockVisits(block, rules) + [];
  }

  /** A configured attribute listed twice is checked twice: an uncommented
      attribute then gets two identical issues. */
  lemma ViolationsDuplicateEntry(block: Block, rule: CommentRule, runner: Runner)
    requires Ready(Visit(block, rule), runner) && Violates(Visit(block, rule), runner)
    ensures PairsReady([block], [rule, rule], runner)
    ensures Violations([block], [rule, rule], runner) == [IssueFor(Visit(block, rule)), IssueFor(Visit(block, rule))]
  {
    var v := Visit(block, rule);
    SingleBlockVisits(block, [rule, rule]);
    var vs := Visits([block], [rule, rule]);
    assert vs == [v, v];
    assert vs[1..] == [v];
    assert Reports(vs, runner) == Report(v, runner) + Reports([v], runner);
    assert Reports([v], runner) == Report(v, runner) + Reports([], runner);
  }

  // ---------------------------------------------------------------------------
  // Check, end to end

  /** With no configured attributes, Check emits nothing and returns no error,
      whatever GetModuleContent would have answered: it never asks. */
  lemma EvaluateEmptyConfig(runner: Runner)
    ensures Evaluate(Ok(InputCommentRuleConfig([])), runner) == Outcome([], None)
  {
  }

  /** When the host does not fail, Check emits exactly the violations. */
  lemma EvaluateWithoutHostFailures(rules: seq<CommentRule>, runner: Runner)
    requires runner.modules.Ok? && CheckReady(Ok(InputCommentRuleConfig(rules)), runner)
    requires runner.sinkCapacity.None? && runner.unreadable == {}
    ensures Evaluate(Ok(InputCommentRuleConfig(rules)), runner)
            == Outcome(Violations(runner.modules.value, rules, runner), None)
  {
    var blocks := runner.modules.value;
    if rules != [] {
      PairsReadyVisits(blocks, rules, runner);
      RunWithoutHostFailures(Visits(blocks, rules), runner);
      RunAgainstReports(Visits(blocks, rules), runner);
    } else {
      assert Visits(blocks, rules) == [] by {
        VisitsLength(blocks, rules);
      }
    }
  }

  /** Whatever the host does, the issues Check emits are a prefix of the
      violations; it returns no error only after emitting all of them. */
  lemma EvaluateIsPrefix(rules: seq<CommentRule>, runner: Runner)
    requires runner.modules.Ok? && CheckReady(Ok(InputCommentRuleConfig(rules)), runner)
    ensures Evaluate(Ok(InputCommentRuleConfig(rules)), runner).issues <= Violations(runner.modules.value, rules, runner)
    ensures Evaluate(Ok(InputCommentRuleConfig(rules)), runner).err.None? ==>
      Evaluate(Ok(InputCommentRuleConfig(rules)), runner).issues == Violations(runner.modules.value, rules, runner)
  {
    var blocks := runner.modules.value;
    if rules != [] {
      PairsReadyVisits(blocks, rules, runner);
      RunAgainstReports(Visits(blocks, rules), runner);
    } else {
      assert Visits(blocks, rules) == [] by {
        VisitsLength(blocks, rules);
      }
    }
  }
}
