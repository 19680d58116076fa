/** ModuleAttributeCommentCheckerRule (rules/module_attribute_comment_checker.go),
    the line-table generation of the rule: the attribute names to check are set
    on the rule object by SetConfig, and the line above an attribute is found by
    splitting its file on "\n" and indexing with the attribute's line number. */
module ModuleAttributeCommentChecker {
  import opened Wrappers
  import opened Bytes
  import opened Tflint
  import opened Format

  /** The rule's name, carried by every issue it emits. */
  const RuleName: string := "module_attribute_comment_checker"

  // ---------------------------------------------------------------------------
  // hasCommentBefore: the line-table detector

  /** A trimmed line is a comment when it starts with `#` or `//`; a bare
      marker counts. */
  predicate IsComment(line: seq<byte>) {
    HasPrefix(line, [Hash]) || HasPrefix(line, [Slash, Slash])
  }

  /** Whether the 1-based line `line - 1` exists in the line table: the source
      asks for `line > 1` and `line - 1 < len(lines)`. */
  predicate HasLineAbove(content: seq<byte>, line: int) {
    1 < line && line - 1 < |SplitLines(content)|
  }

  /** The untrimmed 1-based line `line - 1` of the file. */
  function LineAbove(content: seq<byte>, line: int): seq<byte>
    requires HasLineAbove(content, line)
  {
    SplitLines(content)[line - 2]
  }

  /** hasCommentBefore(attr, file), with `file` None for Go's nil: false for a
      missing file and for a line outside the table, otherwise whether the
      trimmed line above is a comment. */
  predicate HasCommentBeforeLine(file: Option<seq<byte>>, line: int) {
    && file.Some?
    && HasLineAbove(file.value, line)
    && IsComment(TrimSpace(LineAbove(file.value, line)))
  }

  /** For a present file, the detector's answer is the comment test on the
      trimmed line above, whenever that line exists. */
  lemma HasCommentBeforeLineAt(content: seq<byte>, lines: seq<seq<byte>>, line: int)
    requires lines == SplitLines(content)
    requires 2 <= line <= |lines|
    ensures HasCommentBeforeLine(Some(content), line) == IsComment(TrimSpace(lines[line - 2]))
  {
  }

  /** For a file given as its lines, the detector looks at line `line - 1`
      (1-based), trimmed, and at nothing else; the first line and the lines past
      the last but one never have a comment above them. */
  lemma HasCommentBeforeLineOfLines(lines: seq<seq<byte>>, line: int)
    requires lines != []
    requires forall k :: 0 <= k < |lines| ==> NewLine !in lines[k]
    ensures HasCommentBeforeLine(Some(JoinLines(lines)), line) <==>
      2 <= line <= |lines| && IsComment(TrimSpace(lines[line - 2]))
  {
    SplitJoinLines(lines);
  }

  /** Whitespace around the line above, including a Windows `\r`, changes
      nothing: the detector sees the trimmed line. */
  lemma HasCommentBeforeLinePadded(lines: seq<seq<byte>>, padded: seq<seq<byte>>, line: int, l: seq<byte>, r: seq<byte>)
    requires lines != []
    requires forall k :: 0 <= k < |lines| ==> NewLine !in lines[k]
    requires 2 <= line <= |lines|
    requires AllSpace(l) && AllSpace(r) && NewLine !in l && NewLine !in r
    requires Trimmed(lines[line - 2])
    requires padded == lines[line - 2 := l + lines[line - 2] + r]
    ensures HasCommentBeforeLine(Some(JoinLines(padded)), line) == HasCommentBeforeLine(Some(JoinLines(lines)), line)
  {
    var t := lines[line - 2];
    assert TrimSpace(l + t + r) == TrimSpace(t) by {
      TrimSpacePadded(l, t, r);
      TrimSpaceOfTrimmed(t);
    }
    assert NewLine !in l + t + r by {
      assert forall x :: x in l + t + r ==> x in l || x in t || x in r;
    }
    assert forall k :: 0 <= k < |padded| ==> NewLine !in padded[k] by {
      forall k | 0 <= k < |padded| ensures NewLine !in padded[k] {
        if k != line - 2 {
          assert padded[k] == lines[k];
        }
      }
    }
    HasCommentBeforeLineOfLines(lines, line);
    HasCommentBeforeLineOfLines(padded, line);
  }

  // ---------------------------------------------------------------------------
  // Check: the evaluation loop

  /** The message of an issue: `attribute %q in module %q should have a comment`. */
  function IssueMessage(name: string, moduleName: string): string
    requires Plain(name) && Plain(moduleName)
  {
    "attribute " + Quote(name) + " in module " + Quote(moduleName) + " should have a comment"
  }

  /** Reads the attribute name and the module name back out of an issue message. */
  function ParseIssueMessage(text: string): Option<(string, string)> {
    match StripPrefix(text, "attribute ")
    case None => None
    case Some(rest) =>
      match ReadQuoted(rest)
      case None => None
      case Some((name, rest)) =>
        match StripPrefix(rest, " in module ")
        case None => None
        case Some(rest) =>
          match ReadQuoted(rest)
          case None => None
          case Some((moduleName, rest)) =>
            if rest == " should have a comment" then Some((name, moduleName)) else None
  }

  /** An issue message names its attribute and its module unambiguously. */
  lemma ParseIssueMessageRoundTrip(name: string, moduleName: string)
    requires Plain(name) && Plain(moduleName)
    ensures ParseIssueMessage(IssueMessage(name, moduleName)) == Some((name, moduleName))
  {
    var tail := " should have a comment";
    var quotedTail := Quote(moduleName) + tail;
    var rest := " in module " + quotedTail;
    var quotedRest := Quote(name) + rest;
    assert IssueMessage(name, moduleName) == "attribute " + quotedRest;
    assert StripPrefix("attribute " + quotedRest, "attribute ") == Some(quotedRest) by {
      StripPrefixAppend("attribute ", quotedRest);
    }
    assert ReadQuoted(quotedRest) == Some((name, rest)) by {
      ReadQuotedQuote(name, rest);
    }
    assert StripPrefix(rest, " in module ") == Some(quotedTail) by {
      StripPrefixAppend(" in module ", quotedTail);
    }
    assert ReadQuoted(quotedTail) == Some((moduleName, tail)) by {
      ReadQuotedQuote(moduleName, tail);
    }
  }

  /** What one iteration needs: names that `%q` prints between plain quotes. */
  predicate Ready(v: Visit<string>) {
    Plain(v.item) && Plain(v.block.moduleName)
  }

  predicate AllReady(vs: seq<Visit<string>>) {
    forall k :: 0 <= k < |vs| ==> Ready(vs[k])
  }

  /** Every configured name and every module name prints plainly. */
  predicate PairsReady(blocks: seq<Block>, names: seq<string>) {
    forall i, j :: 0 <= i < |blocks| && 0 <= j < |names| ==> Ready(Visit(blocks[i], names[j]))
  }

  /** What Check needs of the configured names and the host's answers. */
  predicate CheckReady(names: seq<string>, runner: Runner) {
    runner.modules.Ok? ==> PairsReady(runner.modules.value, names)
  }

  lemma PairsReadyVisits(blocks: seq<Block>, names: seq<string>)
    requires PairsReady(blocks, names)
    ensures AllReady(Visits(blocks, names))
  {
    VisitsMember(blocks, names);
    forall k | 0 <= k < |Visits(blocks, names)|
      ensures Ready(Visits(blocks, names)[k])
    {
      assert Visits(blocks, names)[k] in Visits(blocks, names);
    }
  }

  /** The issue emitted for an uncommented attribute. */
  function IssueFor(v: Visit<string>): Issue
    requires Ready(v) && v.item in v.block.attributes
  {
    Issue(RuleName, IssueMessage(v.item, v.block.moduleName), v.block.attributes[v.item])
  }

  /** The issue for an uncommented attribute carries the attribute's range, and
      its message names the attribute and the module. */
  lemma IssueForContents(v: Visit<string>)
    requires Ready(v) && v.item in v.block.attributes
    ensures IssueFor(v).rule == RuleName && IssueFor(v).range == v.block.attributes[v.item]
    ensures ParseIssueMessage(IssueFor(v).message) == Some((v.item, v.block.moduleName))
  {
    ParseIssueMessageRoundTrip(v.item, v.block.moduleName);
  }

  /** The configured attribute is present and the line above it is not a
      comment; a file missing from the GetFiles map counts as no comment. */
  predicate Violates(v: Visit<string>, runner: Runner) {
    && v.item in v.block.attributes
    && !HasCommentBeforeLine(runner.File(v.block.attributes[v.item].filename),
                             v.block.attributes[v.item].start.line)
  }

  /** The issue an iteration reports when the sink accepts everything. */
  function Report(v: Visit<string>, runner: Runner): seq<Issue>
    requires Ready(v)
  {
    if Violates(v, runner) then [IssueFor(v)] else []
  }

  /** The issues a sequence of iterations reports when the sink accepts everything. */
  function Reports(vs: seq<Visit<string>>, runner: Runner): seq<Issue>
    requires AllReady(vs)
  {
    if vs == [] then [] else Report(vs[0], runner) + Reports(vs[1..], runner)
  }

  /** One iteration of the inner loop, with EmitIssue errors. */
  function Step(issues: seq<Issue>, v: Visit<string>, runner: Runner): Outcome
    requires Ready(v)
  {
    if Violates(v, runner) then Emit(issues, IssueFor(v), runner) else Outcome(issues, None)
  }

  /** The iterations run in order; the first error ends the run. */
  function Run(vs: seq<Visit<string>>, runner: Runner): Outcome
    requires AllReady(vs)
  {
    if vs == [] then Outcome([], None)
    else
      var before := Run(vs[..|vs| - 1], runner);
      if before.err.Some? then before else Step(before.issues, vs[|vs| - 1], runner)
  }

  /** What Check does, given the configured names and the host's answers. */
  function Evaluate(names: seq<string>, runner: Runner): Outcome
    requires CheckReady(names, runner)
  {
    if names == [] then Outcome([], None)
    else if runner.modules.Err? then Outcome([], Some(runner.modules.error))
    else if runner.getFilesFails then Outcome([], Some(FilesUnavailable))
    else
      PairsReadyVisits(runner.modules.value, names);
      Run(Visits(runner.modules.value, names), runner)
  }

  /** The rule object: its only state is the configured attribute names. */
  class ModuleAttributeCommentCheckerRule {
    var attributeNames: seq<string>

    /** NewModuleAttributeCommentCheckerRule: no names configured. */
    constructor()
      ensures attributeNames == []
    {
      attributeNames := [];
    }

    /** SetConfig replaces the configured names wholesale. */
    method SetConfig(names: seq<string>)
      modifies this
      ensures attributeNames == names
    {
      attributeNames := names;
    }

    /** Check: for each module block, for each configured name, emit an issue
        when the attribute is present and not commented; any host error ends
        the check at once. */
    method Check(runner: Runner) returns (issues: seq<Issue>, err: Option<Error>)
      requires CheckReady(attributeNames, runner)
      ensures Outcome(issues, err) == Evaluate(attributeNames, runner)
    {
      issues, err := [], None;
      var names := attributeNames;
      if |names| == 0 {
        return;
      }
      if runner.modules.Err? {
        return [], Some(runner.modules.error);
      }
      if runner.getFilesFails {
        return [], Some(FilesUnavailable);
      }
      var blocks := runner.modules.value;
      PairsReadyVisits(blocks, names);
      var i := 0;
      while i < |blocks|
        invariant 0 <= i <= |blocks|
        invariant AllReady(Visits(blocks[..i], names))
        invariant Run(Visits(blocks[..i], names), runner) == Outcome(issues, None)
      {
        var block := blocks[i];
        var j := 0;
        assert names[..0] == [];
        assert VisitedSoFar(blocks, names, i, 0) == Visits(blocks[..i], names);
        VisitedSoFarPrefix(blocks, names, i, 0);
        ghost var done := VisitedSoFar(blocks, names, i, 0);
        while j < |names|
          invariant 0 <= j <= |names|
          invariant done == VisitedSoFar(blocks, names, i, j)
          invariant done <= Visits(blocks, names)
          invariant AllReady(done)
          invariant Run(done, runner) == Outcome(issues, None)
        {
          var name := names[j];
          ghost var before := issues;
          var next := j + 1;
          ghost var visited := VisitedSoFar(blocks, names, i, next);
          assert visited == done + [Visit(block, name)] && visited <= Visits(blocks, names) by {
            VisitedSoFarNext(blocks, names, i, j);
            VisitedSoFarPrefix(blocks, names, i, j + 1);
          }
          assert Ready(Visit(block, name)) by {
            assert Visits(blocks, names)[|visited| - 1] == Visit(block, name);
          }
          RunExtend(done, Visit(block, name), runner, before);
          if name in block.attributes {
            var range := block.attributes[name];
            if !HasCommentBeforeLine(runner.File(range.filename), range.start.line) {
              var issue := Issue(RuleName, IssueMessage(name, block.moduleName), range);
              if !runner.Accepts(|issues|) {
                err := Some(IssueRejected);
                RunStopsAtError(visited, Visits(blocks, names), runner);
                return;
              }
              issues := issues + [issue];
            }
          }
          assert Run(visited, runner) == Outcome(issues, None) by {
            assert Step(before, Visit(block, name), runner) == Outcome(issues, None);
          }
          done := visited;
          j := next;
        }
        VisitedSoFarBlock(blocks, names, i);
        i := i + 1;
      }
      assert blocks[..|blocks|] == blocks;
    }
  }

  /** A run that has not failed goes on with the next iteration's step. */
  lemma RunExtend(done: seq<Visit<string>>, v: Visit<string>, runner: Runner, issues: seq<Issue>)
    requires AllReady(done) && Ready(v)
    requires Run(done, runner) == Outcome(issues, None)
    ensures AllReady((done + [v]))
    ensures Run(done + [v], runner) == Step(issues, v, runner)
  {
    assert (done + [v])[..|done|] == done;
  }

  /** Once a run has failed, running further iterations changes nothing. */
  lemma {:induction false} RunStopsAtError(done: seq<Visit<string>>, all: seq<Visit<string>>, runner: Runner)
    requires done <= all && AllReady(all)
    requires AllReady(done) && Run(done, runner).err.Some?
    ensures Run(all, runner) == Run(done, runner)
    decreases |all|
  {
    if |all| > |done| {
      assert done <= all[..|all| - 1];
      RunStopsAtError(done, all[..|all| - 1], runner);
    } else {
      assert all == done;
    }
  }

  // ---------------------------------------------------------------------------
  // What Check reports

  /** The reports of two runs of iterations, one after the other. */
  lemma {:induction false} ReportsAppend(a: seq<Visit<string>>, b: seq<Visit<string>>, runner: Runner)
    requires AllReady(a + b)
    ensures AllReady(a) && AllReady(b)
    ensures Reports(a + b, runner) == Reports(a, runner) + Reports(b, runner)
  {
    assert AllReady(a) && AllReady(b) by {
      assert forall k :: 0 <= k < |a| ==> (a + b)[k] == a[k];
      assert forall k :: 0 <= k < |b| ==> (a + b)[|a| + k] == b[k];
    }
    if a != [] {
      assert (a + b)[1..] == a[1..] + b;
      assert (a + b)[0] == a[0];
      ReportsAppend(a[1..], b, runner);
    } else {
      assert a + b == b;
    }
  }

  /** Every reported issue is the issue of a violating iteration. */
  lemma {:induction false} ReportsSound(vs: seq<Visit<string>>, runner: Runner, issue: Issue)
    requires AllReady(vs) && issue in Reports(vs, runner)
    ensures exists k :: 0 <= k < |vs| && Violates(vs[k], runner) && issue == IssueFor(vs[k])
  {
    if issue !in Report(vs[0], runner) {
      ReportsSound(vs[1..], runner, issue);
      var k :| 0 <= k < |vs[1..]| && Violates(vs[1..][k], runner) && issue == IssueFor(vs[1..][k]);
      assert vs[1..][k] == vs[k + 1];
    }
  }

  /** Every violating iteration's issue is reported. */
  lemma {:induction false} ReportsComplete(vs: seq<Visit<string>>, runner: Runner, k: nat)
    requires AllReady(vs) && k < |vs| && Violates(vs[k], runner)
    ensures IssueFor(vs[k]) in Reports(vs, runner)
  {
    if k > 0 {
      assert vs[1..][k - 1] == vs[k];
      ReportsComplete(vs[1..], runner, k - 1);
    }
  }

  /** An issue is reported exactly for the iterations that violate the rule. */
  lemma ReportsMember(vs: seq<Visit<string>>, runner: Runner, issue: Issue)
    requires AllReady(vs)
    ensures issue in Reports(vs, runner) <==>
      exists k :: 0 <= k < |vs| && Violates(vs[k], runner) && issue == IssueFor(vs[k])
  {
    if issue in Reports(vs, runner) {
      ReportsSound(vs, runner, issue);
    }
    if exists k :: 0 <= k < |vs| && Violates(vs[k], runner) && issue == IssueFor(vs[k]) {
      var k :| 0 <= k < |vs| && Violates(vs[k], runner) && issue == IssueFor(vs[k]);
      ReportsComplete(vs, runner, k);
    }
  }

  /** Check's run against a sink that may fill up: what it emits is always a
      prefix of what it would report otherwise, and all of it when it returns
      no error; the only error is EmitIssue's, and it comes exactly when the
      sink is full. */
  lemma {:induction false} RunAgainstReports(vs: seq<Visit<string>>, runner: Runner)
    requires AllReady(vs)
    ensures Run(vs, runner).issues <= Reports(vs, runner)
    ensures Run(vs, runner).err.None? ==> Run(vs, runner).issues == Reports(vs, runner)
    ensures runner.sinkCapacity.Some? ==> |Run(vs, runner).issues| <= runner.sinkCapacity.value
    ensures Run(vs, runner).err.Some? ==>
      Run(vs, runner).err == Some(IssueRejected) && runner.sinkCapacity == Some(|Run(vs, runner).issues|)
    ensures runner.sinkCapacity.None? ==> Run(vs, runner).err.None?
  {
    if vs != [] {
      var init := vs[..|vs| - 1];
      var last := vs[|vs| - 1];
      assert vs == init + [last];
      ReportsAppend(init, [last], runner);
      assert Reports(vs, runner) == Reports(init, runner) + Report(last, runner) by {
        assert Reports([last], runner) == Report(last, runner) + Reports([], runner);
      }
      RunAgainstReports(init, runner);
    }
  }

  /** The issues a check reports when the sink accepts everything: one per
      (module, configured name) pair that violates the rule, modules in order
      and the configured names in order within each module. */
  function Violations(blocks: seq<Block>, names: seq<string>, runner: Runner): seq<Issue>
    requires PairsReady(blocks, names)
  {
    PairsReadyVisits(blocks, names);
    Reports(Visits(blocks, names), runner)
  }

  /** Every reported issue comes from a violating pair. */
  lemma ViolationsMemberSound(blocks: seq<Block>, names: seq<string>, runner: Runner, issue: Issue)
    requires PairsReady(blocks, names)
    requires issue in Violations(blocks, names, runner)
    ensures exists i, j :: 0 <= i < |blocks| && 0 <= j < |names|
              && Violates(Visit(blocks[i], names[j]), runner) && issue == IssueFor(Visit(blocks[i], names[j]))
  {
    var vs := Visits(blocks, names);
    PairsReadyVisits(blocks, names);
    ReportsSound(vs, runner, issue);
    var k :| 0 <= k < |vs| && Violates(vs[k], runner) && issue == IssueFor(vs[k]);
    VisitsMemberPair(blocks, names, vs[k]);
  }

  /** Every violating pair is reported. */
  lemma ViolationsMemberComplete(blocks: seq<Block>, names: seq<string>, runner: Runner, i: nat, j: nat)
    requires PairsReady(blocks, names)
    requires i < |blocks| && j < |names| && Violates(Visit(blocks[i], names[j]), runner)
    ensures IssueFor(Visit(blocks[i], names[j])) in Violations(blocks, names, runner)
  {
    var vs := Visits(blocks, names);
    PairsReadyVisits(blocks, names);
    VisitsContainPair(blocks, names, i, j);
    var k :| 0 <= k < |vs| && vs[k] == Visit(blocks[i], names[j]);
    ReportsComplete(vs, runner, k);
  }

  /** Exactly the violating pairs are reported. */
  lemma ViolationsMember(blocks: seq<Block>, names: seq<string>, runner: Runner, issue: Issue)
    requires PairsReady(blocks, names)
    ensures issue in Violations(blocks, names, runner) <==>
      exists i, j :: 0 <= i < |blocks| && 0 <= j < |names|
        && Violates(Visit(blocks[i], names[j]), runner) && issue == IssueFor(Visit(blocks[i], names[j]))
  {
    if issue in Violations(blocks, names, runner) {
      ViolationsMemberSound(blocks, names, runner, issue);
    }
    if exists i, j :: 0 <= i < |blocks| && 0 <= j < |names|
        && Violates(Visit(blocks[i], names[j]), runner) && issue == IssueFor(Visit(blocks[i], names[j])) {
      var i, j :| 0 <= i < |blocks| && 0 <= j < |names|
        && Violates(Visit(blocks[i], names[j]), runner) && issue == IssueFor(Visit(blocks[i], names[j]));
      ViolationsMemberComplete(blocks, names, runner, i, j);
    }
  }

  /** Module order: the issues for earlier modules come first. */
  lemma ViolationsModuleOrder(a: seq<Block>, b: seq<Block>, names: seq<string>, runner: Runner)
    requires PairsReady(a + b, names)
    ensures PairsReady(a, names) && PairsReady(b, names)
    ensures Violations(a + b, names, runner) == Violations(a, names, runner) + Violations(b, names, runner)
  {
    assert forall i :: 0 <= i < |a| ==> (a + b)[i] == a[i];
    assert forall i :: 0 <= i < |b| ==> (a + b)[|a| + i] == b[i];
    VisitsAppend(a, b, names);
    PairsReadyVisits(a + b, names);
    ReportsAppend(Visits(a, names), Visits(b, names), runner);
  }

  lemma SingleBlockVisits(block: Block, names: seq<string>)
    ensures Visits([block], names) == BlockVisits(block, names)
  {
    assert [block][1..] == [];
    assert Visits([block], names) == BlockVisits(block, names) + [];
  }

  /** Name order: within one module, the issues follow the configured names. */
  lemma ViolationsNameOrder(block: Block, a: seq<string>, b: seq<string>, runner: Runner)
    requires PairsReady([block], a + b)
    ensures PairsReady([block], a) && PairsReady([block], b)
    ensures Violations([block], a + b, runner) == Violations([block], a, runner) + Violations([block], b, runner)
  {
    assert forall j :: 0 <= j < |a| ==> (a + b)[j] == a[j];
    assert forall j :: 0 <= j < |b| ==> (a + b)[|a| + j] == b[j];
    SingleBlockVisits(block, a);
    SingleBlockVisits(block, b);
    SingleBlockVisits(block, a + b);
    BlockVisitsAppend(block, a, b);
    PairsReadyVisits([block], a + b);
    ReportsAppend(BlockVisits(block, a), BlockVisits(block, b), runner);
  }

  // ---------------------------------------------------------------------------
  // Check, end to end

  /** With no configured names (in particular, on a rule SetConfig was never
      called on), Check emits nothing and returns no error without asking the
      host anything. */
  lemma EvaluateEmptyNames(runner: Runner)
    ensures Evaluate([], runner) == Outcome([], None)
  {
  }

  /** Whatever the sink does, the issues Check emits are a prefix of the
      violations, all of them when it returns no error; with a sink that accepts
      everything and GetModuleContent and GetFiles answering, it returns no
      error. */
  lemma EvaluateIsPrefix(names: seq<string>, runner: Runner)
    requires runner.modules.Ok? && !runner.getFilesFails && CheckReady(names, runner)
    ensures Evaluate(names, runner).issues <= Violations(runner.modules.value, names, runner)
    ensures Evaluate(names, runner).err.None? ==>
      Evaluate(names, runner).issues == Violations(runner.modules.value, names, runner)
    ensures runner.sinkCapacity.None? ==> Evaluate(names, runner).err.None?
  {
    var blocks := runner.modules.value;
    if names != [] {
      PairsReadyVisits(blocks, names);
      RunAgainstReports(Visits(blocks, names), runner);
    } else {
      assert Visits(blocks, names) == [] by {
        VisitsLength(blocks, names);
      }
    }
  }

  /** A configured attribute whose file is missing from the GetFiles map is
      reported, not an error: with a sink that accepts everything, its issue is
      among those Check emits. */
  lemma EvaluateReportsMissingFile(names: seq<string>, runner: Runner, i: nat, j: nat)
    requires runner.modules.Ok? && !runner.getFilesFails && runner.sinkCapacity.None?
    requires CheckReady(names, runner)
    requires i < |runner.modules.value| && j < |names|
    requires names[j] in runner.modules.value[i].attributes
    requires runner.modules.value[i].attributes[names[j]].filename !in runner.files
    ensures Evaluate(names, runner).err.None?
    ensures IssueFor(Visit(runner.modules.value[i], names[j])) in Evaluate(names, runner).issues
  {
    var blocks := runner.modules.value;
    EvaluateIsPrefix(names, runner);
    ViolationsMember(blocks, names, runner, IssueFor(Visit(blocks[i], names[j])));
  }

  /** The rule as the plugin's tests drive it: a freshly constructed rule that
      SetConfig was never called on emits nothing and returns no error. */
  method CheckUnconfigured(runner: Runner) returns (issues: seq<Issue>, err: Option<Error>)
    ensures issues == [] && err.None?
  {
    var rule := new ModuleAttributeCommentCheckerRule();
    issues, err := rule.Check(runner);
  }
}
