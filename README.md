# tflint-ruleset-comment-checker in Dafny

This project models the TFLint plugin's comment rule for Terraform `module`
blocks. For each configured attribute name that a module block has, the rule
looks at the physical line directly above the attribute. If that line is not
a comment, the rule emits an issue. The repository holds two generations of
the rule, and both are modelled:

- **ModuleAttributeCommentsRule** (`rules/module_attribute_comments.go`) is
  the rule the plugin registers. Its detector scans back from the attribute's
  start byte to the two previous newlines, trims the line between them and
  accepts `#` or `//` followed by at least one more byte. Its configuration is
  a list of `CommentRule{Name, Message}` entries. Its message is
  `%q in module %q should have a comment. %s`.
- **ModuleAttributeCommentCheckerRule** (`rules/module_attribute_comment_checker.go`)
  splits the file on `"\n"`, indexes the line above the attribute's line
  number, trims it, and accepts any `#` or `//` prefix, including a bare
  marker. Its attribute names live in a field that only `SetConfig` sets. Its
  message is `attribute %q in module %q should have a comment`.

The TFLint host is an input. A `Runner` value holds four things:

- the module blocks GetModuleContent returns, or its error;
- the bytes of each file, where a missing key is Go's nil file;
- the files GetFile fails on, and whether GetFiles fails;
- how many issues EmitIssue accepts before it returns an error.

Each `Check` is an imperative nested loop over blocks × configured items.
It appends to an issue sequence and returns at the first error. It is proved
equal to a pure function, `Evaluate`, which folds a `Step` over the
flattened iterations (`Visits`). The properties are then proved about
`Evaluate` and `Violations`. `Violations` is the list of issues a check
reports when the host never fails.

Modules:

- `wrappers.dfy`: `Option`.
- `config.dfy`: the configuration records of `rules/config.go`.
- `bytes.dfy`: Go's `bytes.LastIndexByte`, `bytes.HasPrefix`, ASCII
  `TrimSpace`, and `strings.Split` / `strings.Join` on `"\n"`.
- `format.dfy`: `%q` on plain names, and a reader for quoted text.
- `tflint.dfy`: the host's data (ranges, blocks, issues, errors, `Runner`)
  and the iteration order of the nested loop.
- `module_attribute_comments.dfy`: the byte-offset rule.
- `module_attribute_comment_checker.dfy`: the line-table rule, as a class
  whose field `SetConfig` updates.
- `detector_agreement.dfy`: when the two detectors agree.
- `scenarios.dfy`: the tests' "multiple attributes - mixed comments" case
  for both rules.

Three behaviours of the code shape the model:

- **Attribute on the first line.**
  - There is no newline before such an attribute, so the byte-offset
    detector slices the file with index -1 and panics. The model makes a
    position it can inspect a precondition (`OffsetInspectable`).
  - The line-table detector answers false there (`HasLineAbove`).
- **Message format.** Both messages quote the attribute name and the module
  label with `%q`. The byte-offset message keeps its `. ` separator even when
  the configured message is empty.
- **Two comment tests.** The byte-offset detector needs `#` or `//` followed
  by at least one more byte. The line-table detector also accepts a bare `#`
  or `//`. The model keeps both tests and proves where they differ
  (`DetectorAgreement`).

## Model

| member | source | states |
|---|---|---|
| Bytes.LastIndexByte | rules/module_attribute_comments.go:108-110 | the result is -1 or an index holding the byte, and no later index holds it |
| Bytes.LastIndexByteAt | rules/module_attribute_comments.go:108 | any index that holds the byte, with none after it, is the result |
| Bytes.LastIndexByteAppend | rules/module_attribute_comments.go:108-110 | the last occurrence in `a + b` is the last one in `b` shifted by `\|a\|`, else the last one in `a` |
| Bytes.TrimSpace | rules/module_attribute_comments.go:115 | the result is no longer than the input and neither starts nor ends with ASCII whitespace |
| Bytes.TrimSpaceSplits | rules/module_attribute_comments.go:115 | the input is leading whitespace, then the trimmed line, then trailing whitespace |
| Bytes.TrimSpaceOfTrimmed | rules/module_attribute_comment_checker.go:119 | a line without whitespace at either end is left unchanged |
| Bytes.TrimSpaceIdempotent | rules/module_attribute_comment_checker.go:119 | trimming twice is trimming once |
| Bytes.TrimSpacePadded | rules/module_attribute_comment_checker.go:119 | any whitespace around a trimmed line is removed exactly |
| Bytes.TrimSpaceAppendSpace | rules/module_attribute_comments.go:115 | whitespace appended to a line does not survive trimming |
| Bytes.TrimSpaceDropsCarriageReturn | rules/module_attribute_comment_checker.go:119 | a `\r` left by a Windows line ending does not survive trimming |
| Bytes.SplitLines | rules/module_attribute_comment_checker.go:110 | the line table is never empty and no piece holds a newline |
| Bytes.SplitLinesCount | rules/module_attribute_comment_checker.go:110 | there is one more piece than there are newlines |
| Bytes.JoinSplitLines | rules/module_attribute_comment_checker.go:110 | joining the pieces with newlines gives the file back |
| Bytes.SplitJoinLines | rules/module_attribute_comment_checker.go:110 | splitting newline-free pieces joined by newlines gives the pieces back |
| Bytes.JoinLinesSplit | rules/module_attribute_comment_checker.go:110 | the joined lines split into the first `k` lines joined, a newline, and the rest joined |
| Bytes.JoinLinesNewLines | rules/module_attribute_comment_checker.go:110 | newline-free lines joined by newlines hold one newline fewer than there are lines |
| Bytes.SplitLinesAppend | rules/module_attribute_comment_checker.go:110 | a newline splits the line table into the lines before it and the lines after it |
| Format.ReadQuotedQuote | rules/module_attribute_comments.go:84 | a `%q`-printed plain name is read back exactly, whatever follows it |
| Tflint.VisitsMember | rules/module_attribute_comments.go:72-75 | the nested loop visits exactly the (block, item) pairs |
| Tflint.VisitsLength | rules/module_attribute_comments.go:72-75 | the nested loop makes blocks × items iterations |
| Tflint.VisitsAppend | rules/module_attribute_comments.go:72 | the iterations of two runs of blocks are those of the first, then those of the second |
| ModuleAttributeComments.PreviousLineBounds | rules/module_attribute_comments.go:105-112 | the inspected line lies strictly between the last newline before the start byte and the newline before that one (or the file start), and holds no newline |
| ModuleAttributeComments.HasCommentBeforeOffsetLocal | rules/module_attribute_comments.go:105-112 | the answer depends only on the bytes before the attribute's start |
| ModuleAttributeComments.ParseIssueMessageRoundTrip | rules/module_attribute_comments.go:84 | the attribute name, module label and configured message can all be read back from the message |
| ModuleAttributeComments.IssueForContents | rules/module_attribute_comments.go:82-86 | an issue carries the rule's name and the attribute's range, and its message names the attribute, the module and the configured message |
| ModuleAttributeComments.Check | rules/module_attribute_comments.go:42-96 | the loop emits exactly the issues, and returns exactly the error, that `Evaluate` gives for the decoded configuration and the host's answers |
| ModuleAttributeComments.RunStopsAtError | rules/module_attribute_comments.go:76-89 | after the first GetFile or EmitIssue error, no further iteration changes the outcome |
| ModuleAttributeComments.ReportsSound | rules/module_attribute_comments.go:75-90 | every reported issue is the issue of an iteration whose attribute is present and uncommented |
| ModuleAttributeComments.ReportsComplete | rules/module_attribute_comments.go:75-90 | every iteration whose attribute is present and uncommented has its issue reported |
| ModuleAttributeComments.ReportsMember | rules/module_attribute_comments.go:75-90 | an issue is reported if and only if it belongs to a violating iteration |
| ModuleAttributeComments.StepAgainstReport | rules/module_attribute_comments.go:75-91 | one iteration emits a prefix of its report, all of it when no error occurs; EmitIssue fails only on a full sink, and GetFile only on an unreadable file |
| ModuleAttributeComments.RunAgainstReports | rules/module_attribute_comments.go:71-93 | a run emits a prefix of its reports, all of them without an error; it never exceeds the sink's capacity; its errors are a full sink or an unreadable file |
| ModuleAttributeComments.RunWithoutHostFailures | rules/module_attribute_comments.go:71-93 | with readable files and a sink that accepts everything, a run returns no error |
| ModuleAttributeComments.ViolationsMemberSound | rules/module_attribute_comments.go:72-93 | every reported issue comes from a (module, configured attribute) pair whose attribute is present and uncommented |
| ModuleAttributeComments.ViolationsMemberComplete | rules/module_attribute_comments.go:72-93 | every (module, configured attribute) pair whose attribute is present and uncommented is reported |
| ModuleAttributeComments.ViolationsMember | rules/module_attribute_comments.go:72-93 | an issue is reported if and only if some pair has the attribute, uncommented, and the issue is that pair's; absent attributes are skipped |
| ModuleAttributeComments.ViolationsModuleOrder | rules/module_attribute_comments.go:72 | issues for earlier modules come before those for later modules |
| ModuleAttributeComments.ViolationsConfigOrder | rules/module_attribute_comments.go:74 | within one module, issues follow the order of the configured attributes |
| ModuleAttributeComments.ViolationsDuplicateEntry | rules/module_attribute_comments.go:74-90 | an attribute configured twice is evaluated twice, giving two identical issues |
| ModuleAttributeComments.EvaluateEmptyConfig | rules/module_attribute_comments.go:48-52 | with no configured attributes, Check emits nothing and returns no error, whatever the module query would answer |
| ModuleAttributeComments.EvaluateWithoutHostFailures | rules/module_attribute_comments.go:42-96 | when the host never fails, Check emits exactly the violations and returns no error |
| ModuleAttributeComments.EvaluateIsPrefix | rules/module_attribute_comments.go:71-95 | whatever the host does, Check emits a prefix of the violations, and all of them when it returns no error |
| ModuleAttributeCommentChecker.HasCommentBeforeLineAt | rules/module_attribute_comment_checker.go:110-122 | for a line that has a line above it, the answer is the comment test on piece `line - 2` of the line table, trimmed |
| ModuleAttributeCommentChecker.HasCommentBeforeLineOfLines | rules/module_attribute_comment_checker.go:101-123 | for a file given by its lines, the answer is true if and only if `2 <= line <= number of lines` and the trimmed line above starts with `#` or `//` |
| ModuleAttributeCommentChecker.HasCommentBeforeLinePadded | rules/module_attribute_comment_checker.go:119 | whitespace around the line above, `\r` included, does not change the answer |
| ModuleAttributeCommentChecker.ParseIssueMessageRoundTrip | rules/module_attribute_comment_checker.go:86 | the attribute name and the module label can be read back from the message |
| ModuleAttributeCommentChecker.IssueForContents | rules/module_attribute_comment_checker.go:84-88 | an issue carries the rule's name and the attribute's range, and its message names the attribute and the module |
| ModuleAttributeCommentChecker.ModuleAttributeCommentCheckerRule.constructor | rules/module_attribute_comment_checker.go:19-21 | a new rule has no attribute names |
| ModuleAttributeCommentChecker.ModuleAttributeCommentCheckerRule.SetConfig | rules/module_attribute_comment_checker.go:44-46 | the attribute names are replaced wholesale, and nothing else in the rule changes |
| ModuleAttributeCommentChecker.ModuleAttributeCommentCheckerRule.Check | rules/module_attribute_comment_checker.go:49-98 | the loop emits exactly the issues, and returns exactly the error, that `Evaluate` gives for the rule's names and the host's answers; the rule is not modified |
| ModuleAttributeCommentChecker.RunStopsAtError | rules/module_attribute_comment_checker.go:84-91 | after the first EmitIssue error, no further iteration changes the outcome |
| ModuleAttributeCommentChecker.ReportsSound | rules/module_attribute_comment_checker.go:81-92 | every reported issue is the issue of an iteration whose attribute is present and uncommented |
| ModuleAttributeCommentChecker.ReportsComplete | rules/module_attribute_comment_checker.go:81-92 | every iteration whose attribute is present and uncommented has its issue reported |
| ModuleAttributeCommentChecker.ReportsMember | rules/module_attribute_comment_checker.go:81-92 | an issue is reported if and only if it belongs to a violating iteration |
| ModuleAttributeCommentChecker.RunAgainstReports | rules/module_attribute_comment_checker.go:77-97 | a run emits a prefix of its reports, all of them without an error; it never exceeds the sink's capacity; its only error is a full sink, and with an unbounded sink there is none |
| ModuleAttributeCommentChecker.ViolationsMemberSound | rules/module_attribute_comment_checker.go:78-94 | every reported issue comes from a (module, name) pair whose attribute is present and uncommented |
| ModuleAttributeCommentChecker.ViolationsMemberComplete | rules/module_attribute_comment_checker.go:78-94 | every (module, name) pair whose attribute is present and uncommented is reported |
| ModuleAttributeCommentChecker.ViolationsMember | rules/module_attribute_comment_checker.go:78-94 | an issue is reported if and only if some pair has the attribute, uncommented, and the issue is that pair's |
| ModuleAttributeCommentChecker.ViolationsModuleOrder | rules/module_attribute_comment_checker.go:78 | issues for earlier modules come before those for later modules |
| ModuleAttributeCommentChecker.ViolationsNameOrder | rules/module_attribute_comment_checker.go:80 | within one module, issues follow the order of the configured names |
| ModuleAttributeCommentChecker.EvaluateEmptyNames | rules/module_attribute_comment_checker.go:51-53 | with no names, Check emits nothing and returns no error, whatever the host would answer |
| ModuleAttributeCommentChecker.EvaluateIsPrefix | rules/module_attribute_comment_checker.go:49-98 | Check emits a prefix of the violations, all of them when it returns no error, and with an unbounded sink it returns no error |
| ModuleAttributeCommentChecker.EvaluateReportsMissingFile | rules/module_attribute_comment_checker.go:83 | an attribute whose file is missing from the GetFiles map is reported as uncommented, and no error is returned |
| ModuleAttributeCommentChecker.CheckUnconfigured | rules/module_attribute_comment_checker_test.go:159-165 | a new rule whose SetConfig was never called emits nothing and returns no error, whatever the host answers |
| DetectorAgreement.DocCommentIsNonBareComment | rules/module_attribute_comments.go:117-118 | the byte-offset comment test holds if and only if the line-table test holds and the line is not a bare `#` or `//` |
| DetectorAgreement.SameLineInspected | rules/module_attribute_comment_checker.go:106-119 | when the line number is one more than the newlines before the start byte, and at least 2, both detectors inspect the same untrimmed line |
| DetectorAgreement.HasCommentBeforeOffsetOfLines | rules/module_attribute_comments.go:105-118 | in a file given by its lines, an attribute indented on line `k + 1` starts at a byte offset consistent with that line, and the byte-offset detector's answer there is the comment test on line `k`, trimmed |
| DetectorAgreement.DetectorsAgree | rules/module_attribute_comment_checker.go:106-122 | on such a position, a byte-offset comment is a line-table comment, and the two differ exactly when the trimmed line above is a bare marker |
| DetectorAgreement.MissingFileHasNoComment | rules/module_attribute_comments.go:100-102 | both detectors answer false for a nil file |
| DetectorAgreement.BareMarkerDisagreement | rules/module_attribute_comments.go:117-118 | for any file whose first line is `#`, an attribute at byte 2 (line 2) has a comment for the line-table detector and none for the byte-offset one |
| Scenarios.LineCountMessage | rules/module_attribute_comment_checker_test.go:75 | the line-table rule's message for count is the test's expected text |
| Scenarios.ByteCountMessage | rules/module_attribute_comments_test.go:85 | the byte-offset rule's message for count, with an empty configured message, is the test's expected text, trailing `. ` included |
| Scenarios.LineRuleMixedDetector | rules/module_attribute_comment_checker_test.go:58-66 | on the bytes of the test file, the line-table detector finds comments above lines 5 and 8 and none above line 6 |
| Scenarios.ByteRuleMixedDetector | rules/module_attribute_comments_test.go:60-68 | on the bytes of the test file, the byte-offset detector can inspect bytes 83, 112 and 145, where instance_type, count and name start, and finds comments above the first and the last only |
| Scenarios.LineRuleMixedViolations | rules/module_attribute_comment_checker_test.go:56-82 | on the test file, with the attributes on lines 5, 6 and 8, the line-table rule reports only count, with the expected message and range |
| Scenarios.LineRuleMixedComments | rules/module_attribute_comment_checker_test.go:56-82 | on the test file, configured through SetConfig, the line-table rule's Check emits exactly the test's one expected issue and no error |
| Scenarios.ByteRuleMixedViolations | rules/module_attribute_comments_test.go:58-93 | on the test file, with the attributes at bytes 83, 112 and 145, the byte-offset rule reports only count, with the expected message and range |
| Scenarios.ByteRuleMixedComments | rules/module_attribute_comments_test.go:58-93 | on the test file, the byte-offset rule's Check emits exactly the test's one expected issue and no error |
## Left out

- `main.go` (plugin bootstrapping) and the `Name`, `Enabled`, `Severity` and `Link` getters: constants with nothing to prove. Each rule's name appears as `RuleName` on its issues.
- `DecodeRuleConfig` and its `hclext` struct-tag decoding: a library call. Its result, a configuration or an error, is an input of `ModuleAttributeComments.Check`.
- HCL parsing, `GetModuleContent`, `GetFile`, `GetFiles` and `EmitIssue`: host calls. Their answers are the fields of `Runner`, and attribute positions are inputs.
- Where the host's answers come from: nothing forces an attribute's byte offset and line number to match its file. `DetectorAgreement` states the consistency it needs as a precondition.
- The module schema that `Check` passes to `GetModuleContent`: the model takes the blocks it returns, each with its one label.
- `logger.Warn` on an empty configuration: logging, with no effect on the outcome.
- Panics: an attribute on the first line of its file, or a start byte past the end of the file, makes the byte-offset detector slice out of range. `Ready`/`CheckReady` require both to be absent.
- Panics: an empty `module.Labels` would make `Labels[0]` panic in both rules. Each `Block` carries exactly one label, `moduleName`.
- ModuleAttributeComments.IssueMessage: models `%q` only on plain names (printable ASCII without `"` or `\`), where it just adds quotes. Go's escaping of other characters is not modelled, and `Ready` requires plain names.
- ModuleAttributeCommentChecker.IssueMessage: the same restriction of `%q` to plain names.
- Bytes.TrimSpace: removes ASCII whitespace only. Go's `TrimSpace` also removes Unicode spaces such as U+0085 and U+00A0, and that is not modelled.
- The two `hasCommentBefore` functions share a name in one Go package, and so do the two test functions. Here the detectors are `HasCommentBeforeOffset` and `HasCommentBeforeLine`.
- Strings are sequences of characters, and file contents are sequences of bytes. Go's `string(file.Bytes)` conversion becomes the identity on bytes.

## Findings

| source | as written | input that shows it | evidently intended | confidence | as-written member | corrected member |
|---|---|---|---|---|---|---|
| rules/module_attribute_comment_checker_test.go:159-165 | the test builds one rule with `NewModuleAttributeCommentCheckerRule()` and never calls `SetConfig`, so `attributeNames` is empty and `Check` returns at line 51 without emitting anything | the "multiple attributes - mixed comments" case (lines 56-82) expects one issue for count, but the unconfigured rule emits none | each case configures the rule with its `attribute_names` through `SetConfig` before `Check` | not executed | ModuleAttributeCommentChecker.CheckUnconfigured | Scenarios.LineRuleMixedComments |
