/** What a rule sees of the TFLint host: module blocks with attribute ranges,
    file contents, and the issue sink. The host's answers are inputs here, so a
    rule's Check becomes a function of them (the Runner value) whose result is
    the sequence of issues it emits and the error, if any, that it returns. */
module Tflint {
  import opened Wrappers
  import opened Bytes

  /** The errors a Check can return; each aborts the check where it happens. */
  datatype Error =
    | ConfigInvalid            // DecodeRuleConfig failed
    | ModuleContentUnavailable // GetModuleContent failed
    | FileUnavailable(filename: string) // GetFile failed for this file
    | FilesUnavailable         // GetFiles failed
    | IssueRejected            // EmitIssue failed

  datatype Result<+T> = Ok(value: T) | Err(error: Error)

  /** hcl.Pos: 1-based line and column, 0-based byte offset. */
  datatype Pos = Pos(line: int, column: int, byteOffset: int)

  /** hcl.Range */
  datatype Range = Range(filename: string, start: Pos, end: Pos)

  /** A `module "<label>" { ... }` block as GetModuleContent returns it with one
      label (moduleName) and a just-attributes body: each attribute name with
      its range. */
  datatype Block = Block(moduleName: string, attributes: map<string, Range>)

  /** An issue as EmitIssue records it: the emitting rule's name, the message
      and the range it points at. */
  datatype Issue = Issue(rule: string, message: string, range: Range)

  /** The host's answers for one check.
      - modules: what GetModuleContent returns for the module schema;
      - files: the bytes of each file; GetFile and GetFiles give no file (Go's
        nil) for a name that is not a key;
      - unreadable: the names for which GetFile returns an error;
      - getFilesFails: whether GetFiles returns an error;
      - sinkCapacity: EmitIssue returns an error once it has accepted this many
        issues (None: it never does). */
  datatype Runner = Runner(
    modules: Result<seq<Block>>,
    files: map<string, seq<byte>>,
    unreadable: set<string>,
    getFilesFails: bool,
    sinkCapacity: Option<nat>)
  {
    /** The file GetFile / GetFiles hands the detector for `filename`. */
    function File(filename: string): Option<seq<byte>> {
      if filename in files then Some(files[filename]) else None
    }

    /** Whether EmitIssue accepts an issue after `emitted` earlier ones. */
    predicate Accepts(emitted: nat) {
      sinkCapacity.None? || emitted < sinkCapacity.value
    }
  }

  /** The issues emitted so far and the error Check returned, if any. */
  datatype Outcome = Outcome(issues: seq<Issue>, err: Option<Error>)

  /** EmitIssue on top of the issues emitted so far. */
  function Emit(issues: seq<Issue>, issue: Issue, runner: Runner): Outcome {
    if runner.Accepts(|issues|) then Outcome(issues + [issue], None)
    else Outcome(issues, Some(IssueRejected))
  }

  /** One iteration of a rule's inner loop: a module block and one configured item. */
  datatype Visit<C> = Visit(block: Block, item: C)

  /** The iterations of the inner loop over `items` for one block, in order. */
  function BlockVisits<C>(block: Block, items: seq<C>): (vs: seq<Visit<C>>)
    ensures |vs| == |items|
    ensures forall k :: 0 <= k < |items| ==> vs[k] == Visit(block, items[k])
  {
    seq(|items|, k requires 0 <= k < |items| => Visit(block, items[k]))
  }

  /** The iterations of the nested loop, blocks outside and items inside. */
  function Visits<C>(blocks: seq<Block>, items: seq<C>): seq<Visit<C>> {
    if blocks == [] then [] else BlockVisits(blocks[0], items) + Visits(blocks[1..], items)
  }

  /** Visiting two runs of blocks visits the first run, then the second. */
  lemma {:induction false} VisitsAppend<C>(a: seq<Block>, b: seq<Block>, items: seq<C>)
    ensures Visits(a + b, items) == Visits(a, items) + Visits(b, items)
  {
    if a != [] {
      assert (a + b)[1..] == a[1..] + b;
      assert Visits(a + b, items) == BlockVisits(a[0], items) + Visits(a[1..] + b, items);
      VisitsAppend(a[1..], b, items);
    } else {
      assert a + b == b;
    }
  }

  /** Within a block, items are visited in configuration order. */
  lemma BlockVisitsAppend<C>(block: Block, a: seq<C>, b: seq<C>)
    ensures BlockVisits(block, a + b) == BlockVisits(block, a) + BlockVisits(block, b)
  {
  }

  lemma {:induction false} VisitsMemberPair<C>(blocks: seq<Block>, items: seq<C>, v: Visit<C>)
    requires v in Visits(blocks, items)
    ensures exists i, j :: 0 <= i < |blocks| && 0 <= j < |items| && v == Visit(blocks[i], items[j])
  {
    if v in BlockVisits(blocks[0], items) {
      var j :| 0 <= j < |items| && BlockVisits(blocks[0], items)[j] == v;
      assert v == Visit(blocks[0], items[j]);
    } else {
      VisitsMemberPair(blocks[1..], items, v);
      var i, j :| 0 <= i < |blocks[1..]| && 0 <= j < |items| && v == Visit(blocks[1..][i], items[j]);
      assert v == Visit(blocks[i + 1], items[j]);
    }
  }

  lemma {:induction false} VisitsContainPair<C>(blocks: seq<Block>, items: seq<C>, i: nat, j: nat)
    requires i < |blocks| && j < |items|
    ensures Visit(blocks[i], items[j]) in Visits(blocks, items)
  {
    if i == 0 {
      assert BlockVisits(blocks[0], items)[j] == Visit(blocks[i], items[j]);
    } else {
      assert blocks[1..][i - 1] == blocks[i];
      VisitsContainPair(blocks[1..], items, i - 1, j);
    }
  }

  /** Every iteration pairs a block with an item, and every pair is an iteration. */
  lemma VisitsMember<C>(blocks: seq<Block>, items: seq<C>)
    ensures forall v :: v in Visits(blocks, items) <==>
      exists i, j :: 0 <= i < |blocks| && 0 <= j < |items| && v == Visit(blocks[i], items[j])
  {
    forall v | v in Visits(blocks, items)
      ensures exists i, j :: 0 <= i < |blocks| && 0 <= j < |items| && v == Visit(blocks[i], items[j])
    {
      VisitsMemberPair(blocks, items, v);
    }
    forall i, j | 0 <= i < |blocks| && 0 <= j < |items|
      ensures Visit(blocks[i], items[j]) in Visits(blocks, items)
    {
      VisitsContainPair(blocks, items, i, j);
    }
  }

  lemma {:induction false} VisitsLength<C>(blocks: seq<Block>, items: seq<C>)
    ensures |Visits(blocks, items)| == |blocks| * |items|
  {
    if blocks != [] {
      VisitsLength(blocks[1..], items);
    }
  }

  /** The iterations finished after `i` whole blocks and `j` items of the next. */
  function VisitedSoFar<C>(blocks: seq<Block>, items: seq<C>, i: nat, j: nat): seq<Visit<C>>
    requires i < |blocks| && j <= |items|
  {
    Visits(blocks[..i], items) + BlockVisits(blocks[i], items[..j])
  }

  /** The iterations finished at any point are a prefix of all iterations. */
  lemma VisitedSoFarPrefix<C>(blocks: seq<Block>, items: seq<C>, i: nat, j: nat)
    requires i < |blocks| && j <= |items|
    ensures VisitedSoFar(blocks, items, i, j) <= Visits(blocks, items)
  {
    assert blocks == blocks[..i] + blocks[i..];
    VisitsAppend(blocks[..i], blocks[i..], items);
    assert Visits(blocks[i..], items) == BlockVisits(blocks[i], items) + Visits(blocks[i + 1..], items);
    assert BlockVisits(blocks[i], items[..j]) <= BlockVisits(blocks[i], items);
  }

  /** One more iteration of the inner loop adds one visit. */
  lemma VisitedSoFarNext<C>(blocks: seq<Block>, items: seq<C>, i: nat, j: nat)
    requires i < |blocks| && j < |items|
    ensures VisitedSoFar(blocks, items, i, j + 1) == VisitedSoFar(blocks, items, i, j) + [Visit(blocks[i], items[j])]
  {
    assert items[..j + 1] == items[..j] + [items[j]];
    BlockVisitsAppend(blocks[i], items[..j], [items[j]]);
  }

  lemma TakeOneMore<T>(s: seq<T>, i: nat)
    requires i < |s|
    ensures s[..i + 1] == s[..i] + [s[i]]
  {
  }

  /** Finishing the inner loop finishes the block. */
  lemma VisitedSoFarBlock<C>(blocks: seq<Block>, items: seq<C>, i: nat)
    requires i < |blocks|
    ensures VisitedSoFar(blocks, items, i, |items|) == Visits(blocks[..i + 1], items)
  {
    TakeOneMore(blocks, i);
    VisitsAppend(blocks[..i], [blocks[i]], items);
    assert items[..|items|] == items;
    assert Visits([blocks[i]], items) == BlockVisits(blocks[i], items);
  }
}
