/**
 The lockfile harness: building test cases, grouping them by fixture, running each group, and
 flattening and classifying the results. The outcomes of foreign commands are parameters.
 */
module FixtureGroups {
  import opened Wrappers
  import opened WorkerPool

  datatype Fixture = Fixture(name: string, dir: string, pruneTargets: seq<string>, expectedFailures: seq<string>)

  datatype TestCase = TestCase(
    filename: string,
    filepath: string,
    target: string,
    caseLabel: string,
    expectedFailure: bool)

  /** The fields of a result that do not come from the clock. */
  datatype Record = Record(
    caseLabel: string,
    success: bool,
    pruneSuccess: bool,
    validationSuccess: bool,
    error: Option<string>)

  // ---------- Test cases ----------

  function Label(f: Fixture, target: string): string {
    f.name + " → " + target
  }

  function CaseOf(f: Fixture, target: string): TestCase {
    TestCase(f.name, f.dir, target, Label(f, target), target in f.expectedFailures)
  }

  /** An absent or empty workspace argument selects every target. */
  predicate Selected(workspace: Option<string>, target: string) {
    workspace.None? || workspace.value == "" || target == workspace.value
  }

  function CasesOfTargets(f: Fixture, targets: seq<string>, workspace: Option<string>): seq<TestCase> {
    if targets == [] then []
    else
      var last := targets[|targets| - 1];
      CasesOfTargets(f, targets[..|targets| - 1], workspace)
      + if Selected(workspace, last) then [CaseOf(f, last)] else []
  }

  function CaseBlocks(fixtures: seq<Fixture>, workspace: Option<string>): seq<seq<TestCase>> {
    seq(|fixtures|, i requires 0 <= i < |fixtures| => CasesOfTargets(fixtures[i], fixtures[i].pruneTargets, workspace))
  }

  predicate IsExpected(cases: seq<TestCase>, caseLabel: string) {
    exists c :: c in cases && c.expectedFailure && c.caseLabel == caseLabel
  }

  method BuildTestCases(fixtures: seq<Fixture>, workspace: Option<string>)
    returns (cases: seq<TestCase>, expectedFailures: set<string>)
    ensures cases == Flatten(CaseBlocks(fixtures, workspace))
    ensures forall caseLabel :: caseLabel in expectedFailures <==> IsExpected(cases, caseLabel)
  {
    cases, expectedFailures := [], {};
    ghost var blocks := CaseBlocks(fixtures, workspace);
    for i := 0 to |fixtures|
      invariant cases == Flatten(blocks[..i])
      invariant forall caseLabel :: caseLabel in expectedFailures <==> IsExpected(cases, caseLabel)
    {
      ghost var before := cases;
      var f := fixtures[i];
      for j := 0 to |f.pruneTargets|
        invariant cases == before + CasesOfTargets(f, f.pruneTargets[..j], workspace)
        invariant forall caseLabel :: caseLabel in expectedFailures <==> IsExpected(cases, caseLabel)
      {
        var target := f.pruneTargets[j];
        assert f.pruneTargets[..j + 1][..j] == f.pruneTargets[..j];
        if !Selected(workspace, target) { continue; }
        var c := CaseOf(f, target);
        if c.expectedFailure {
          expectedFailures := expectedFailures + {c.caseLabel};
        }
        ghost var shorter := cases;
        cases := cases + [c];
        ExpectedSnoc(shorter, c);
      }
      assert f.pruneTargets[..|f.pruneTargets|] == f.pruneTargets;
      assert blocks[..i + 1] == blocks[..i] + [blocks[i]];
      FlattenSnoc(blocks[..i], blocks[i]);
    }
    assert blocks[..|fixtures|] == blocks;
  }

  lemma ExpectedSnoc(cases: seq<TestCase>, c: TestCase)
    ensures forall caseLabel :: IsExpected(cases + [c], caseLabel) <==>
              IsExpected(cases, caseLabel) || (c.expectedFailure && c.caseLabel == caseLabel)
  {
    forall caseLabel | IsExpected(cases, caseLabel)
      ensures IsExpected(cases + [c], caseLabel)
    {
      var d :| d in cases && d.expectedFailure && d.caseLabel == caseLabel;
      assert d in cases + [c];
    }
    assert c in cases + [c];
  }

  /** `c` is the test of `target` in fixture `f`: its label names both, and it is expected to fail exactly if the
      fixture lists the target. */
  ghost predicate Tests(c: TestCase, f: Fixture, target: string) {
    && c.filename == f.name && c.filepath == f.dir && c.target == target
    && c.caseLabel == f.name + " → " + target
    && (c.expectedFailure <==> target in f.expectedFailures)
  }

  lemma {:induction false} TargetsBecomeCases(f: Fixture, targets: seq<string>, workspace: Option<string>, c: TestCase)
    ensures c in CasesOfTargets(f, targets, workspace) <==>
              && c.target in targets && Tests(c, f, c.target)
              && (workspace == None || workspace == Some("") || workspace == Some(c.target))
  {
    if targets != [] {
      var front, last := targets[..|targets| - 1], targets[|targets| - 1];
      TargetsBecomeCases(f, front, workspace, c);
      assert targets == front + [last];
      assert c == CaseOf(f, last) <==> c.target == last && Tests(c, f, last);
    }
  }

  /** Without a workspace argument each target becomes one case, in order. */
  lemma {:induction false} AllTargetsInOrder(f: Fixture, targets: seq<string>)
    ensures var cases := CasesOfTargets(f, targets, None);
            |cases| == |targets| && forall i :: 0 <= i < |targets| ==> Tests(cases[i], f, targets[i])
  {
    if targets != [] {
      AllTargetsInOrder(f, targets[..|targets| - 1]);
    }
  }

  lemma {:induction false} FlattenHas<T>(parts: seq<seq<T>>, x: T)
    ensures x in Flatten(parts) <==> exists i :: 0 <= i < |parts| && x in parts[i]
  {
    if parts != [] {
      FlattenHas(parts[1..], x);
      assert forall i :: 0 < i < |parts| ==> parts[i] == parts[1..][i - 1];
      if i :| 0 <= i < |parts[1..]| && x in parts[1..][i] {
        assert x in parts[i + 1];
      }
    }
  }

  /** The cases built are the tests of the targets of the fixtures; a workspace argument restricts them to that
      target. */
  lemma BuiltCasesAreTargets(fixtures: seq<Fixture>, workspace: Option<string>, c: TestCase)
    ensures c in Flatten(CaseBlocks(fixtures, workspace)) <==>
              && (exists f :: f in fixtures && c.target in f.pruneTargets && Tests(c, f, c.target))
              && (workspace == None || workspace == Some("") || workspace == Some(c.target))
  {
    hide Tests;
    var blocks := CaseBlocks(fixtures, workspace);
    FlattenHas(blocks, c);
    forall i | 0 <= i < |fixtures|
      ensures c in blocks[i] <==>
                && c.target in fixtures[i].pruneTargets && Tests(c, fixtures[i], c.target)
                && (workspace == None || workspace == Some("") || workspace == Some(c.target))
    {
      TargetsBecomeCases(fixtures[i], fixtures[i].pruneTargets, workspace, c);
    }
    if f :| f in fixtures && c.target in f.pruneTargets && Tests(c, f, c.target) {
      var i :| 0 <= i < |fixtures| && fixtures[i] == f;
      assert c in blocks[i] <==> workspace == None || workspace == Some("") || workspace == Some(c.target);
    }
  }

  // ---------- Grouping ----------

  /** The fixture paths in order of first appearance. */
  function GroupKeys(cases: seq<TestCase>): seq<string> {
    if cases == [] then []
    else
      var front, key := GroupKeys(cases[..|cases| - 1]), cases[|cases| - 1].filepath;
      if key in front then front else front + [key]
  }

  function CasesFor(cases: seq<TestCase>, key: string): seq<TestCase> {
    if cases == [] then []
    else
      CasesFor(cases[..|cases| - 1], key)
      + if cases[|cases| - 1].filepath == key then [cases[|cases| - 1]] else []
  }

  function GroupsFor(cases: seq<TestCase>, keys: seq<string>): seq<seq<TestCase>> {
    seq(|keys|, i requires 0 <= i < |keys| => CasesFor(cases, keys[i]))
  }

  function Groups(cases: seq<TestCase>): seq<seq<TestCase>> {
    GroupsFor(cases, GroupKeys(cases))
  }

  /** The map holds the cases of each path seen, and `order` the paths in order of first appearance. */
  ghost predicate IsGrouped(cases: seq<TestCase>, order: seq<string>, byPath: map<string, seq<TestCase>>) {
    && order == GroupKeys(cases)
    && (forall key :: key in order <==> key in byPath)
    && (forall key :: key in byPath ==> byPath[key] == CasesFor(cases, key))
  }

  lemma OneMoreCase(cases: seq<TestCase>, c: TestCase)
    ensures var front, key := GroupKeys(cases), c.filepath;
            GroupKeys(cases + [c]) == if key in front then front else front + [key]
    ensures CasesFor(cases + [c], c.filepath) == CasesFor(cases, c.filepath) + [c]
    ensures forall key :: key != c.filepath ==> CasesFor(cases + [c], key) == CasesFor(cases, key)
  {
    assert (cases + [c])[..|cases|] == cases;
  }

  lemma KnownPathGrows(cases: seq<TestCase>, c: TestCase, order: seq<string>, byPath: map<string, seq<TestCase>>)
    requires IsGrouped(cases, order, byPath) && c.filepath in byPath
    ensures IsGrouped(cases + [c], order, byPath[c.filepath := byPath[c.filepath] + [c]])
  {
    OneMoreCase(cases, c);
    hide GroupKeys, CasesFor;
  }

  lemma NewPathIsAdded(cases: seq<TestCase>, c: TestCase, order: seq<string>, byPath: map<string, seq<TestCase>>)
    requires IsGrouped(cases, order, byPath) && c.filepath !in byPath
    ensures IsGrouped(cases + [c], order + [c.filepath], byPath[c.filepath := [c]])
  {
    OneMoreCase(cases, c);
    NoCasesYet(cases, c.filepath);
    assert [] + [c] == [c];
    hide GroupKeys, CasesFor;
  }

  /** Fills a map from fixture path to cases, whose entries stay in insertion order. */
  method GroupByFixture(cases: seq<TestCase>) returns (groups: seq<seq<TestCase>>)
    ensures groups == Groups(cases)
  {
    var order: seq<string> := [];
    var byPath: map<string, seq<TestCase>> := map[];
    assert IsGrouped(cases[..0], order, byPath);
    for i := 0 to |cases|
      invariant IsGrouped(cases[..i], order, byPath)
    {
      hide IsGrouped;
      var key := cases[i].filepath;
      assert cases[..i + 1] == cases[..i] + [cases[i]];
      if key in byPath {
        KnownPathGrows(cases[..i], cases[i], order, byPath);
        byPath := byPath[key := byPath[key] + [cases[i]]];
      } else {
        NewPathIsAdded(cases[..i], cases[i], order, byPath);
        byPath := byPath[key := [cases[i]]];
        order := order + [key];
      }
    }
    hide GroupKeys, CasesFor;
    assert cases[..|cases|] == cases;
    assert forall i :: 0 <= i < |order| ==> order[i] in order;
    groups := seq(|order|, i requires 0 <= i < |order| && order[i] in byPath => byPath[order[i]]);
  }

  lemma {:induction false} NoCasesYet(cases: seq<TestCase>, key: string)
    requires key !in GroupKeys(cases)
    ensures CasesFor(cases, key) == []
  {
    if cases != [] {
      NoCasesYet(cases[..|cases| - 1], key);
    }
  }

  /** Cases of one fixture are next to each other. */
  ghost predicate Contiguous(cases: seq<TestCase>) {
    forall i, j, k :: 0 <= i < j < k < |cases| && cases[i].filepath == cases[k].filepath ==>
      cases[j].filepath == cases[i].filepath
  }

  lemma {:induction false} GroupKeysCover(cases: seq<TestCase>)
    ensures Distinct(GroupKeys(cases))
    ensures forall key :: key in GroupKeys(cases) <==> exists c :: c in cases && c.filepath == key
  {
    if cases != [] {
      var front, last := cases[..|cases| - 1], cases[|cases| - 1];
      GroupKeysCover(front);
      assert cases == front + [last];
      assert forall c :: c in cases <==> c in front || c == last;
    }
  }

  lemma ContiguousPrefix(cases: seq<TestCase>, n: nat)
    requires Contiguous(cases) && n <= |cases|
    ensures Contiguous(cases[..n])
  {
    forall i, j, k | 0 <= i < j < k < n && cases[..n][i].filepath == cases[..n][k].filepath
      ensures cases[..n][j].filepath == cases[..n][i].filepath
    {
      assert cases[i].filepath == cases[k].filepath;
    }
  }

  lemma RepeatedKeyIsPrevious(cases: seq<TestCase>)
    requires Contiguous(cases) && cases != []
    requires cases[|cases| - 1].filepath in GroupKeys(cases[..|cases| - 1])
    ensures |cases| >= 2 && cases[|cases| - 2].filepath == cases[|cases| - 1].filepath
  {
    var front, last := cases[..|cases| - 1], cases[|cases| - 1];
    GroupKeysCover(front);
    var c :| c in front && c.filepath == last.filepath;
    var i :| 0 <= i < |front| && front[i] == c;
    assert cases[i].filepath == cases[|cases| - 1].filepath;
    if i < |cases| - 2 {
      assert cases[|cases| - 2].filepath == cases[i].filepath;
    }
  }

  lemma {:induction false} LastKeyIsLast(cases: seq<TestCase>)
    requires Contiguous(cases) && cases != []
    ensures GroupKeys(cases) != []
    ensures GroupKeys(cases)[|GroupKeys(cases)| - 1] == cases[|cases| - 1].filepath
  {
    var front := cases[..|cases| - 1];
    if cases[|cases| - 1].filepath in GroupKeys(front) {
      RepeatedKeyIsPrevious(cases);
      ContiguousPrefix(cases, |cases| - 1);
      LastKeyIsLast(front);
      assert front[|front| - 1] == cases[|cases| - 2];
    }
  }

  /** The cases of other fixtures are not affected by one more case. */
  lemma OtherGroupsStay(cases: seq<TestCase>, keys: seq<string>)
    requires cases != [] && cases[|cases| - 1].filepath !in keys
    ensures GroupsFor(cases, keys) == GroupsFor(cases[..|cases| - 1], keys)
  {
    forall i | 0 <= i < |keys|
      ensures CasesFor(cases, keys[i]) == CasesFor(cases[..|cases| - 1], keys[i])
    {
      assert keys[i] in keys;
      assert CasesFor(cases, keys[i]) == CasesFor(cases[..|cases| - 1], keys[i]) + [];
    }
  }

  lemma GroupsForSnoc(cases: seq<TestCase>, keys: seq<string>, key: string)
    ensures Flatten(GroupsFor(cases, keys + [key])) == Flatten(GroupsFor(cases, keys)) + CasesFor(cases, key)
  {
    hide CasesFor;
    assert GroupsFor(cases, keys + [key]) == GroupsFor(cases, keys) + [CasesFor(cases, key)];
    FlattenSnoc(GroupsFor(cases, keys), CasesFor(cases, key));
  }

  lemma NewGroup(cases: seq<TestCase>)
    requires cases != [] && cases[|cases| - 1].filepath !in GroupKeys(cases[..|cases| - 1])
    ensures Flatten(Groups(cases)) == Flatten(Groups(cases[..|cases| - 1])) + [cases[|cases| - 1]]
  {
    var front, last := cases[..|cases| - 1], cases[|cases| - 1];
    GroupsForSnoc(cases, GroupKeys(front), last.filepath);
    OtherGroupsStay(cases, GroupKeys(front));
    NoCasesYet(front, last.filepath);
    assert CasesFor(cases, last.filepath) == [] + [last];
  }

  lemma LastCaseIsIn(cases: seq<TestCase>)
    requires cases != []
    ensures var last := cases[|cases| - 1];
            CasesFor(cases, last.filepath) == CasesFor(cases[..|cases| - 1], last.filepath) + [last]
  {
  }

  lemma GrownGroup(cases: seq<TestCase>, others: seq<string>)
    requires cases != [] && cases[|cases| - 1].filepath !in others
    requires GroupKeys(cases) == GroupKeys(cases[..|cases| - 1]) == others + [cases[|cases| - 1].filepath]
    ensures Flatten(Groups(cases)) == Flatten(Groups(cases[..|cases| - 1])) + [cases[|cases| - 1]]
  {
    hide GroupKeys, GroupsFor, CasesFor, Flatten;
    var front, last := cases[..|cases| - 1], cases[|cases| - 1];
    GroupsForSnoc(cases, others, last.filepath);
    GroupsForSnoc(front, others, last.filepath);
    OtherGroupsStay(cases, others);
    LastCaseIsIn(cases);
    AppendAssociates(Flatten(GroupsFor(front, others)), CasesFor(front, last.filepath), [last]);
  }

  lemma {:induction false} ContiguousGroupsFlatten(cases: seq<TestCase>)
    requires Contiguous(cases)
    ensures Flatten(Groups(cases)) == cases
  {
    if cases != [] {
      var front, last := cases[..|cases| - 1], cases[|cases| - 1];
      assert cases == front + [last];
      ContiguousPrefix(cases, |cases| - 1);
      ContiguousGroupsFlatten(front);
      if last.filepath in GroupKeys(front) {
        LastKeyIsLast(cases);
        GroupKeysCover(cases);
        var keys := GroupKeys(cases);
        assert keys == keys[..|keys| - 1] + [last.filepath];
        GrownGroup(cases, keys[..|keys| - 1]);
      } else {
        NewGroup(cases);
      }
    }
  }

  ghost predicate KeyedBlocks(keys: seq<string>, blocks: seq<seq<TestCase>>) {
    && |keys| == |blocks| && Distinct(keys)
    && forall i, c :: 0 <= i < |blocks| && c in blocks[i] ==> c.filepath == keys[i]
  }

  /** Blocks with different keys, one after another, are contiguous. */
  lemma {:induction false} KeyedBlocksAreContiguous(keys: seq<string>, blocks: seq<seq<TestCase>>)
    requires KeyedBlocks(keys, blocks)
    ensures Contiguous(Flatten(blocks))
  {
    if blocks != [] {
      var n := |blocks| - 1;
      var front, last := Flatten(blocks[..n]), blocks[n];
      KeyedBlocksAreContiguous(keys[..n], blocks[..n]);
      assert blocks == blocks[..n] + [last];
      FlattenSnoc(blocks[..n], last);
      var all := front + last;
      forall i, j, k | 0 <= i < j < k < |all| && all[i].filepath == all[k].filepath
        ensures all[j].filepath == all[i].filepath
      {
        if k >= |front| {
          assert all[k] in last;
          if i < |front| {
            assert all[i] in front;
            FlattenHas(blocks[..n], all[i]);
          }
          assert i >= |front|;
          assert all[j] in last && all[i] in last;
        }
      }
    }
  }

  lemma {:induction false} CasesForKey(cases: seq<TestCase>, key: string)
    ensures forall c :: c in CasesFor(cases, key) ==> c.filepath == key
  {
    if cases != [] {
      CasesForKey(cases[..|cases| - 1], key);
    }
  }

  /** Grouping followed by flattening restores the order of the cases exactly when the cases of each
      fixture were next to each other. */
  lemma FlattenRestoresExactlyContiguous(cases: seq<TestCase>)
    ensures Flatten(Groups(cases)) == cases <==> Contiguous(cases)
  {
    if Contiguous(cases) {
      ContiguousGroupsFlatten(cases);
    }
    if Flatten(Groups(cases)) == cases {
      GroupKeysCover(cases);
      forall i, c | 0 <= i < |Groups(cases)| && c in Groups(cases)[i]
        ensures c.filepath == GroupKeys(cases)[i]
      {
        CasesForKey(cases, GroupKeys(cases)[i]);
      }
      KeyedBlocksAreContiguous(GroupKeys(cases), Groups(cases));
    }
  }

  lemma {:induction false} CasesOfTargetsKey(f: Fixture, targets: seq<string>, workspace: Option<string>)
    ensures forall c :: c in CasesOfTargets(f, targets, workspace) ==> c.filepath == f.dir
  {
    if targets != [] {
      CasesOfTargetsKey(f, targets[..|targets| - 1], workspace);
    }
  }

  /** Fixtures in different directories yield contiguous cases. */
  lemma BuiltCasesAreContiguous(fixtures: seq<Fixture>, workspace: Option<string>)
    requires forall i, j :: 0 <= i < j < |fixtures| ==> fixtures[i].dir != fixtures[j].dir
    ensures Contiguous(Flatten(CaseBlocks(fixtures, workspace)))
  {
    var keys := seq(|fixtures|, i requires 0 <= i < |fixtures| => fixtures[i].dir);
    forall i, c | 0 <= i < |fixtures| && c in CaseBlocks(fixtures, workspace)[i]
      ensures c.filepath == keys[i]
    {
      CasesOfTargetsKey(fixtures[i], fixtures[i].pruneTargets, workspace);
    }
    KeyedBlocksAreContiguous(keys, CaseBlocks(fixtures, workspace));
  }

  // ---------- Running one case ----------

  /** What a call does: it returns a value, or it throws. */
  datatype Call<+T> = Returns(value: T) | Throws(message: string)

  datatype ExecResult = ExecResult(exitCode: int, output: string)

  /** What the calls in the loop body do. `validate` returns the error it found, if any, and the printing
      calls do nothing for a case that is expected to fail. */
  datatype Script = Script(
    printPrune: Call<()>,
    prune: Call<ExecResult>,
    printPruneFailed: Call<()>,
    printPruned: Call<()>,
    buildCommand: Call<string>,
    printCommand: Call<()>,
    validate: Call<Option<string>>,
    printInvalid: Call<()>,
    printPassed: Call<()>,
    printError: Call<()>)

  /** How control leaves a block: at its end, by `continue`, or by an exception. */
  datatype Completion = Normal | Continue | Threw(message: string)

  function Log(quiet: bool, line: Call<()>): Call<()> {
    if quiet then Returns(()) else line
  }

  /** An error message counts unless it is empty. */
  predicate Invalid(validationError: Option<string>) {
    validationError.Some? && validationError.value != ""
  }

  /** Results are objects that are filled in after they may already have been pushed. */
  class TestResult {
    const caseLabel: string
    var success: bool
    var pruneSuccess: bool
    var validationSuccess: bool
    var error: Option<string>
    var durationMs: nat

    constructor (caseLabel: string)
      ensures View() == Record(caseLabel, false, false, false, None)
    {
      this.caseLabel := caseLabel;
      success, pruneSuccess, validationSuccess, error, durationMs := false, false, false, None, 0;
    }

    function View(): Record
      reads this`success, this`pruneSuccess, this`validationSuccess, this`error
    {
      Record(caseLabel, success, pruneSuccess, validationSuccess, error)
    }
  }

  function Effect<T>(c: Call<T>): Call<()> {
    match c
    case Returns(_) => Returns(())
    case Throws(message) => Throws(message)
  }

  predicate PruneWorks(s: Script) {
    s.prune.Returns? && s.prune.value.exitCode == 0
  }

  predicate ValidationWorks(s: Script) {
    s.validate.Returns? && !Invalid(s.validate.value)
  }

  /** The calls that the `try` block makes in order, until one throws. */
  function CallsOf(s: Script, quiet: bool): seq<Call<()>> {
    [Log(quiet, s.printPrune), Effect(s.prune)]
    + if !PruneWorks(s) then [Log(quiet, s.printPruneFailed)]
      else
        [Log(quiet, s.printPruned), Effect(s.buildCommand), Log(quiet, s.printCommand), Effect(s.validate)]
        + [Log(quiet, if ValidationWorks(s) then s.printPassed else s.printInvalid)]
  }

  /** The position of the first call that throws, or the number of calls. */
  function FirstThrow(calls: seq<Call<()>>): (k: nat)
    ensures k <= |calls| && (k < |calls| ==> calls[k].Throws?)
    ensures forall i :: 0 <= i < k ==> calls[i].Returns?
  {
    if calls == [] || calls[0].Throws? then 0 else 1 + FirstThrow(calls[1..])
  }

  /** The exception that leaves the `try` block, if any. */
  function Exception(s: Script, quiet: bool): Option<string> {
    var calls := CallsOf(s, quiet);
    var k := FirstThrow(calls);
    if k < |calls| then Some(calls[k].message) else None
  }

  /** The exception that leaves the loop body: one of the report of an exception. */
  function Rejection(s: Script, quiet: bool): Option<string> {
    if Exception(s, quiet).Some? && !quiet && s.printError.Throws? then Some(s.printError.message) else None
  }

  const PRUNE_CALLS: nat := 2
  const VALIDATION_CALLS: nat := 6

  /** The flags say how far the case has come; the error is that of an exception, or of the stage that failed. */
  function RecordOfScript(caseLabel: string, s: Script, quiet: bool): Record {
    var reached := FirstThrow(CallsOf(s, quiet));
    var pruned := PruneWorks(s) && reached >= PRUNE_CALLS;
    var validated := PruneWorks(s) && ValidationWorks(s) && reached >= VALIDATION_CALLS;
    Record(caseLabel, validated, pruned, validated,
           if Exception(s, quiet).Some? then Exception(s, quiet) else StageError(s))
  }

  /** The error of the stage that failed without an exception. */
  function StageError(s: Script): Option<string> {
    if s.prune.Returns? && s.prune.value.exitCode != 0 then Some("Prune failed:\n" + s.prune.value.output)
    else if s.validate.Returns? && Invalid(s.validate.value) then s.validate.value
    else None
  }

  /** The `try` block: it pushes the result itself when a stage fails. */
  method TryCase(result: TestResult, s: Script, quiet: bool, results: seq<TestResult>)
    returns (results': seq<TestResult>, completion: Completion)
    requires result.View() == Record(result.caseLabel, false, false, false, None)
    modifies result
    ensures completion == match Exception(s, quiet)
                          case Some(message) => Threw(message)
                          case None => if PruneWorks(s) && ValidationWorks(s) then Normal else Continue
    ensures results' == if completion == Continue then results + [result] else results
    ensures completion.Threw? ==>
              result.View().(error := Some(completion.message)) == RecordOfScript(result.caseLabel, s, quiet)
    ensures !completion.Threw? ==> result.View() == RecordOfScript(result.caseLabel, s, quiet)
  {
    ghost var calls := CallsOf(s, quiet);
    results' := results;
    assert calls[0] == Log(quiet, s.printPrune);
    var printed := Log(quiet, s.printPrune);
    if printed.Throws? { ThrowsAt(s, quiet, 0); return results', Threw(printed.message); }
    assert calls[1] == Effect(s.prune);
    if s.prune.Throws? { ThrowsAt(s, quiet, 1); return results', Threw(s.prune.message); }
    if s.prune.value.exitCode != 0 {
      assert calls[2] == Log(quiet, s.printPruneFailed);
      printed := Log(quiet, s.printPruneFailed);
      if printed.Throws? { ThrowsAt(s, quiet, 2); return results', Threw(printed.message); }
      result.error := Some("Prune failed:\n" + s.prune.value.output);
      results' := results' + [result];
      NothingThrows(s, quiet);
      return results', Continue;
    }
    result.pruneSuccess := true;
    assert calls[2] == Log(quiet, s.printPruned);
    printed := Log(quiet, s.printPruned);
    if printed.Throws? { ThrowsAt(s, quiet, 2); return results', Threw(printed.message); }
    assert calls[3] == Effect(s.buildCommand);
    if s.buildCommand.Throws? { ThrowsAt(s, quiet, 3); return results', Threw(s.buildCommand.message); }
    assert calls[4] == Log(quiet, s.printCommand);
    printed := Log(quiet, s.printCommand);
    if printed.Throws? { ThrowsAt(s, quiet, 4); return results', Threw(printed.message); }
    assert calls[5] == Effect(s.validate);
    if s.validate.Throws? { ThrowsAt(s, quiet, 5); return results', Threw(s.validate.message); }
    if Invalid(s.validate.value) {
      printed := Log(quiet, s.printInvalid);
      assert calls[6] == printed;
      if printed.Throws? { ThrowsAt(s, quiet, 6); return results', Threw(printed.message); }
      result.error := s.validate.value;
      results' := results' + [result];
      NothingThrows(s, quiet);
      return results', Continue;
    }
    result.validationSuccess := true;
    result.success := true;
    printed := Log(quiet, s.printPassed);
    assert calls[6] == printed;
    if printed.Throws? { ThrowsAt(s, quiet, 6); return results', Threw(printed.message); }
    NothingThrows(s, quiet);
    completion := Normal;
  }

  lemma {:induction false} FirstThrowIs(calls: seq<Call<()>>, k: nat)
    requires k < |calls| && calls[k].Throws? && forall i :: 0 <= i < k ==> calls[i].Returns?
    ensures FirstThrow(calls) == k
  {
  }

  lemma ThrowsAt(s: Script, quiet: bool, k: nat)
    requires var calls := CallsOf(s, quiet);
             k < |calls| && calls[k].Throws? && forall i :: 0 <= i < k ==> calls[i].Returns?
    ensures FirstThrow(CallsOf(s, quiet)) == k && Exception(s, quiet) == Some(CallsOf(s, quiet)[k].message)
  {
    FirstThrowIs(CallsOf(s, quiet), k);
  }

  lemma NothingThrows(s: Script, quiet: bool)
    requires forall i :: 0 <= i < |CallsOf(s, quiet)| ==> CallsOf(s, quiet)[i].Returns?
    ensures FirstThrow(CallsOf(s, quiet)) == |CallsOf(s, quiet)| && Exception(s, quiet) == None
  {
  }

  /** One iteration of the case loop with its `try`, `catch` and `finally` blocks. Wherever a call throws,
      exactly one result is pushed, unless the exception cannot be reported either: that exception leaves
      the loop, and the case has no result. */
  method RunCase(tc: TestCase, s: Script, results: seq<TestResult>)
    returns (results': seq<TestResult>, rejection: Option<string>)
    ensures rejection == Rejection(s, tc.expectedFailure)
    ensures rejection.Some? ==> results' == results
    ensures rejection.None? ==>
              && |results'| == |results| + 1 && results'[..|results|] == results
              && fresh(results'[|results|])
              && results'[|results|].View() == RecordOfScript(tc.caseLabel, s, tc.expectedFailure)
  {
    var quiet := tc.expectedFailure;
    var result := new TestResult(tc.caseLabel);
    var completion;
    results', completion := TryCase(result, s, quiet, results);
    if completion.Threw? {
      result.error := Some(completion.message);
      completion := Normal;
      if !quiet && s.printError.Throws? {
        completion := Threw(s.printError.message);
      }
    }
    CleanUp(result);
    match completion {
      case Threw(message) => return results', Some(message);
      case Continue => return results', None;
      case Normal => return results' + [result], None;
    }
  }

  /** The `finally` block of a case stamps the duration, also on a result pushed before. */
  method CleanUp(result: TestResult)
    modifies result`durationMs
  {
    var elapsed: nat := *;
    result.durationMs := elapsed;
  }

  /** Printing throws, which it does only for a case that is not expected to fail. */
  predicate PrintThrows(quiet: bool, line: Call<()>, message: string) {
    !quiet && line == Throws(message)
  }

  predicate PrintWorks(quiet: bool, line: Call<()>) {
    quiet || line.Returns?
  }

  /** Up to a working `prune`; up to the validation. */
  predicate Prunes(s: Script, quiet: bool) {
    PrintWorks(quiet, s.printPrune) && s.prune.Returns? && s.prune.value.exitCode == 0
  }

  predicate ReachesValidation(s: Script, quiet: bool) {
    && Prunes(s, quiet) && PrintWorks(quiet, s.printPruned)
    && s.buildCommand.Returns? && PrintWorks(quiet, s.printCommand)
  }

  /** The exception `message` is thrown before pruning has succeeded. */
  predicate ThrowsEarly(s: Script, quiet: bool, message: string) {
    || PrintThrows(quiet, s.printPrune, message)
    || (PrintWorks(quiet, s.printPrune) && s.prune == Throws(message))
    || (&& PrintWorks(quiet, s.printPrune) && s.prune.Returns? && s.prune.value.exitCode != 0
        && PrintThrows(quiet, s.printPruneFailed, message))
  }

  /** The exception `message` is thrown after that, and before validation has succeeded. */
  predicate ThrowsLater(s: Script, quiet: bool, message: string) {
    && Prunes(s, quiet)
    && (|| PrintThrows(quiet, s.printPruned, message)
        || (PrintWorks(quiet, s.printPruned) && s.buildCommand == Throws(message))
        || (&& PrintWorks(quiet, s.printPruned) && s.buildCommand.Returns?
            && PrintThrows(quiet, s.printCommand, message))
        || (ReachesValidation(s, quiet) && s.validate == Throws(message))
        || (&& ReachesValidation(s, quiet) && s.validate.Returns? && Invalid(s.validate.value)
            && PrintThrows(quiet, s.printInvalid, message)))
  }

  /** The exception `message` is thrown when all has succeeded. */
  predicate ThrowsLast(s: Script, quiet: bool, message: string) {
    && ReachesValidation(s, quiet) && s.validate.Returns? && !Invalid(s.validate.value)
    && PrintThrows(quiet, s.printPassed, message)
  }

  lemma CallsBeforeThrow(s: Script, quiet: bool, k: nat)
    requires k <= |CallsOf(s, quiet)|
    requires forall i :: 0 <= i < k ==> CallsOf(s, quiet)[i].Returns?
    requires k < |CallsOf(s, quiet)| ==> CallsOf(s, quiet)[k].Throws?
    ensures FirstThrow(CallsOf(s, quiet)) == k
  {
  }

  /** What a case comes to, for each call that may throw: the stages passed before it are marked, the message is
      the error, and the exception leaves the loop exactly if reporting it throws as well. */
  lemma ExceptionsAreRecorded(caseLabel: string, s: Script, quiet: bool, message: string)
    ensures ThrowsEarly(s, quiet, message) ==>
              RecordOfScript(caseLabel, s, quiet) == Record(caseLabel, false, false, false, Some(message))
    ensures ThrowsLater(s, quiet, message) ==>
              RecordOfScript(caseLabel, s, quiet) == Record(caseLabel, false, true, false, Some(message))
    ensures ThrowsLast(s, quiet, message) ==>
              RecordOfScript(caseLabel, s, quiet) == Record(caseLabel, true, true, true, Some(message))
    ensures ThrowsEarly(s, quiet, message) || ThrowsLater(s, quiet, message) || ThrowsLast(s, quiet, message) ==>
              (Rejection(s, quiet).Some? <==> !quiet && s.printError.Throws?)
    ensures Rejection(s, quiet).Some? ==> s.printError == Throws(Rejection(s, quiet).value)
  {
    var calls := CallsOf(s, quiet);
    assert calls[0] == Log(quiet, s.printPrune) && calls[1] == Effect(s.prune);
    if PruneWorks(s) {
      assert calls[2] == Log(quiet, s.printPruned) && calls[3] == Effect(s.buildCommand);
      assert calls[4] == Log(quiet, s.printCommand) && calls[5] == Effect(s.validate);
      assert calls[6] == Log(quiet, if ValidationWorks(s) then s.printPassed else s.printInvalid);
    } else {
      assert calls[2] == Log(quiet, s.printPruneFailed);
    }
  }

  /** Without an exception the case fails at the stage that failed, with its message, or passes. An empty message
      of the validation counts as none. */
  lemma StagesAreRecorded(caseLabel: string, s: Script, quiet: bool)
    ensures && PrintWorks(quiet, s.printPrune) && s.prune.Returns? && s.prune.value.exitCode != 0
            && PrintWorks(quiet, s.printPruneFailed) ==>
              RecordOfScript(caseLabel, s, quiet)
              == Record(caseLabel, false, false, false, Some("Prune failed:\n" + s.prune.value.output))
    ensures && ReachesValidation(s, quiet)
            && s.validate.Returns? && s.validate.value.Some? && s.validate.value.value != ""
            && PrintWorks(quiet, s.printInvalid) ==>
              RecordOfScript(caseLabel, s, quiet) == Record(caseLabel, false, true, false, s.validate.value)
    ensures && ReachesValidation(s, quiet) && s.validate in {Returns(None), Returns(Some(""))}
            && PrintWorks(quiet, s.printPassed) ==>
              RecordOfScript(caseLabel, s, quiet) == Record(caseLabel, true, true, true, None)
  {
    var calls := CallsOf(s, quiet);
    assert calls[0] == Log(quiet, s.printPrune) && calls[1] == Effect(s.prune);
    if PruneWorks(s) {
      assert calls[2] == Log(quiet, s.printPruned) && calls[3] == Effect(s.buildCommand);
      assert calls[4] == Log(quiet, s.printCommand) && calls[5] == Effect(s.validate);
      assert calls[6] == Log(quiet, if ValidationWorks(s) then s.printPassed else s.printInvalid);
    } else {
      assert calls[2] == Log(quiet, s.printPruneFailed);
    }
  }

  /** A case can succeed and still carry an error: exactly if all goes well but printing that it passed. */
  lemma SucceedsWithErrorExactlyWhenLastPrintThrows(caseLabel: string, s: Script, quiet: bool)
    ensures var r := RecordOfScript(caseLabel, s, quiet);
            r.success && r.error.Some? <==>
              && PruneWorks(s) && ValidationWorks(s) && s.buildCommand.Returns?
              && !quiet && s.printPrune.Returns? && s.printPruned.Returns? && s.printCommand.Returns?
              && s.printPassed.Throws?
  {
    var calls := CallsOf(s, quiet);
    if PruneWorks(s) && ValidationWorks(s) {
      assert |calls| == 7 && calls[0] == Log(quiet, s.printPrune) && calls[1] == Effect(s.prune);
      assert calls[2] == Log(quiet, s.printPruned) && calls[3] == Effect(s.buildCommand);
      assert calls[4] == Log(quiet, s.printCommand) && calls[5] == Effect(s.validate);
      assert calls[6] == Log(quiet, s.printPassed);
    }
  }

  // ---------- Running one group ----------

  function InvalidRecord(tc: TestCase, validationError: Option<string>): Record {
    Record(tc.caseLabel, false, false, false, validationError)
  }

  function InvalidRecords(cases: seq<TestCase>, validationError: Option<string>): seq<Record> {
    seq(|cases|, i requires 0 <= i < |cases| => InvalidRecord(cases[i], validationError))
  }

  function ScriptRecords(cases: seq<TestCase>, scripts: seq<Script>): seq<Record>
    requires |cases| == |scripts|
  {
    seq(|cases|, i requires 0 <= i < |cases| =>
      RecordOfScript(cases[i].caseLabel, scripts[i], cases[i].expectedFailure))
  }

  function FirstRejection(cases: seq<TestCase>, scripts: seq<Script>): Option<string>
    requires |cases| == |scripts|
  {
    if cases == [] then None
    else
      match Rejection(scripts[0], cases[0].expectedFailure)
      case Some(message) => Some(message)
      case None => FirstRejection(cases[1..], scripts[1..])
  }

  /** How a group ends, from what its validation, the common set-up and the calls of its cases do. */
  function GroupOutcome(
    cases: seq<TestCase>,
    validation: Result<Option<string>, string>,
    setup: Result<(), string>,
    scripts: seq<Script>): Result<seq<Record>, string>
    requires |cases| == |scripts|
  {
    if cases == [] then Ok([])
    else if validation.Err? then Err(validation.error)
    else if Invalid(validation.value) then Ok(InvalidRecords(cases, validation.value))
    else if setup.Err? then Err(setup.error)
    else
      match FirstRejection(cases, scripts)
      case Some(message) => Err(message)
      case None => Ok(ScriptRecords(cases, scripts))
  }

  /** A group that does not reject has one result per case, in order. It rejects exactly if validation or
      the common set-up throws, or an exception of a case cannot be reported. */
  method RunFixtureGroup(
    cases: seq<TestCase>,
    validation: Result<Option<string>, string>,
    setup: Result<(), string>,
    scripts: seq<Script>)
    returns (r: Result<seq<TestResult>, string>)
    requires |cases| == |scripts|
    ensures var outcome := GroupOutcome(cases, validation, setup, scripts);
            && (r.Ok? <==> outcome.Ok?)
            && (r.Err? ==> r.error == outcome.error)
            && (r.Ok? ==>
                  && |r.value| == |cases| == |outcome.value|
                  && forall i :: 0 <= i < |cases| ==> r.value[i].View() == outcome.value[i])
  {
    if cases == [] { return Ok([]); }
    var results: seq<TestResult> := [];
    if validation.Err? { return Err(validation.error); }
    var validationError := validation.value;
    if Invalid(validationError) {
      for i := 0 to |cases|
        invariant |results| == i && forall j :: 0 <= j < i ==> fresh(results[j])
        invariant forall j :: 0 <= j < i ==> results[j].View() == InvalidRecord(cases[j], validationError)
      {
        var result := new TestResult(cases[i].caseLabel);
        result.error := validationError;
        results := results + [result];
      }
      return Ok(results);
    }
    if setup.Err? { return Err(setup.error); }
    hide RecordOfScript, Rejection;
    assert cases[0..] == cases && scripts[0..] == scripts;
    for i := 0 to |cases|
      invariant |results| == i && FirstRejection(cases, scripts) == FirstRejection(cases[i..], scripts[i..])
      invariant forall j :: 0 <= j < i ==> results[j].View() == ScriptRecords(cases, scripts)[j]
    {
      ghost var before := results;
      assert cases[i..][1..] == cases[i + 1..] && scripts[i..][1..] == scripts[i + 1..];
      var rejection;
      results, rejection := RunCase(cases[i], scripts[i], results);
      if rejection.Some? {
        return Err(rejection.value);
      }
      assert forall j :: 0 <= j < i ==> results[j] == before[j];
    }
    return Ok(results);
  }

  // ---------- The whole harness ----------

  /** What the outside does, for each fixture path and each case. */
  datatype Environment = Environment(
    validation: string -> Result<Option<string>, string>,
    setup: string -> Result<(), string>,
    script: TestCase -> Script)
  {
    /** The case makes the group of its fixture reject. */
    predicate Breaks(tc: TestCase) {
      var validation := validation(tc.filepath);
      || validation.Err?
      || (!Invalid(validation.value)
          && (setup(tc.filepath).Err? || Rejection(script(tc), tc.expectedFailure).Some?))
    }

    /** The result of a case whose group does not reject. */
    function RecordOf(tc: TestCase): Record {
      var validation := validation(tc.filepath);
      if validation.Ok? && Invalid(validation.value) then Record(tc.caseLabel, false, false, false, validation.value)
      else RecordOfScript(tc.caseLabel, script(tc), tc.expectedFailure)
    }

    function RecordsOf(cases: seq<TestCase>): seq<Record> {
      seq(|cases|, i requires 0 <= i < |cases| => RecordOf(cases[i]))
    }

    function Scripts(cases: seq<TestCase>): seq<Script> {
      seq(|cases|, i requires 0 <= i < |cases| => script(cases[i]))
    }

    /** One call of `runFixtureGroup`, as its contract describes it. */
    function RunGroup(group: seq<TestCase>): Result<seq<Record>, string> {
      if group == [] then Ok([])
      else GroupOutcome(group, validation(group[0].filepath), setup(group[0].filepath), Scripts(group))
    }
  }

  /** The group ends with the first case whose exception cannot be reported. */
  lemma {:induction false} FirstRejectionMeans(cases: seq<TestCase>, scripts: seq<Script>)
    requires |cases| == |scripts|
    ensures FirstRejection(cases, scripts).Some? <==>
              exists i :: 0 <= i < |cases| && Rejection(scripts[i], cases[i].expectedFailure).Some?
    ensures FirstRejection(cases, scripts).Some? ==>
              exists i :: 0 <= i < |cases|
                && Rejection(scripts[i], cases[i].expectedFailure) == FirstRejection(cases, scripts)
                && forall j :: 0 <= j < i ==> Rejection(scripts[j], cases[j].expectedFailure) == None
  {
    hide Rejection;
    if cases != [] {
      FirstRejectionMeans(cases[1..], scripts[1..]);
      assert forall i :: 0 < i < |cases| ==> cases[i] == cases[1..][i - 1] && scripts[i] == scripts[1..][i - 1];
      if Rejection(scripts[0], cases[0].expectedFailure).None? && FirstRejection(cases, scripts).Some? {
        var i :| 0 <= i < |cases[1..]|
          && Rejection(scripts[1..][i], cases[1..][i].expectedFailure) == FirstRejection(cases[1..], scripts[1..])
          && forall j :: 0 <= j < i ==> Rejection(scripts[1..][j], cases[1..][j].expectedFailure) == None;
        assert Rejection(scripts[i + 1], cases[i + 1].expectedFailure) == FirstRejection(cases, scripts);
        assert forall j :: 0 <= j < i + 1 ==> Rejection(scripts[j], cases[j].expectedFailure) == None;
      }
    }
  }

  /** The cases of one fixture run as one group: it rejects exactly if one of them breaks it, and otherwise
      yields their results. */
  lemma GroupRunsItsCases(env: Environment, group: seq<TestCase>)
    requires group != [] && forall c :: c in group ==> c.filepath == group[0].filepath
    ensures env.RunGroup(group).Err? <==> exists c :: c in group && env.Breaks(c)
    ensures env.RunGroup(group).Ok? ==> env.RunGroup(group).value == env.RecordsOf(group)
  {
    hide Rejection, RecordOfScript;
    var scripts := env.Scripts(group);
    assert forall i :: 0 <= i < |group| ==> group[i] in group;
    FirstRejectionMeans(group, scripts);
    if i :| 0 <= i < |group| && Rejection(scripts[i], group[i].expectedFailure).Some? {
      assert group[i] in group;
    }
    assert group[0] in group;
  }

  /** Running all groups and concatenating their results gives the results of all cases. */
  lemma {:induction false} GroupsYieldRecords(env: Environment, groups: seq<seq<TestCase>>, parts: seq<seq<Record>>)
    requires |parts| == |groups| && forall i :: 0 <= i < |groups| ==> parts[i] == env.RecordsOf(groups[i])
    ensures Flatten(parts) == env.RecordsOf(Flatten(groups))
  {
    if groups != [] {
      GroupsYieldRecords(env, groups[1..], parts[1..]);
      assert parts[0] == env.RecordsOf(groups[0]);
      assert env.RecordsOf(groups[0] + Flatten(groups[1..]))
          == env.RecordsOf(groups[0]) + env.RecordsOf(Flatten(groups[1..]));
    }
  }

  /** Each group holds cases of one fixture, and each case is in a group. */
  lemma GroupsCoverCases(cases: seq<TestCase>)
    ensures forall i :: 0 <= i < |Groups(cases)| ==>
              && Groups(cases)[i] != []
              && forall c :: c in Groups(cases)[i] ==> c in cases && c.filepath == GroupKeys(cases)[i]
    ensures forall c :: c in cases ==> exists i :: 0 <= i < |Groups(cases)| && c in Groups(cases)[i]
  {
    hide CasesFor;
    var keys := GroupKeys(cases);
    GroupKeysCover(cases);
    forall i | 0 <= i < |keys|
      ensures CasesFor(cases, keys[i]) != []
      ensures forall c :: c in CasesFor(cases, keys[i]) ==> c in cases && c.filepath == keys[i]
    {
      CasesForHas(cases, keys[i]);
      assert keys[i] in keys;
      var c :| c in cases && c.filepath == keys[i];
      assert c in CasesFor(cases, keys[i]);
    }
    forall c | c in cases
      ensures exists i :: 0 <= i < |Groups(cases)| && c in Groups(cases)[i]
    {
      assert c.filepath in keys;
      var i :| 0 <= i < |keys| && keys[i] == c.filepath;
      CasesForHas(cases, keys[i]);
      assert c in Groups(cases)[i];
    }
  }

  lemma {:induction false} CasesForHas(cases: seq<TestCase>, key: string)
    ensures forall c :: c in CasesFor(cases, key) <==> c in cases && c.filepath == key
  {
    if cases != [] {
      var front, last := cases[..|cases| - 1], cases[|cases| - 1];
      CasesForHas(front, key);
      assert forall c :: c in cases <==> c in front || c == last;
    }
  }

  lemma GroupBreaksExactlyWhenCaseBreaks(env: Environment, cases: seq<TestCase>)
    ensures SomeRejects(Groups(cases), env.RunGroup) <==> exists c :: c in cases && env.Breaks(c)
    ensures forall i :: 0 <= i < |Groups(cases)| && env.RunGroup(Groups(cases)[i]).Ok? ==>
              env.RunGroup(Groups(cases)[i]).value == env.RecordsOf(Groups(cases)[i])
  {
    var groups := Groups(cases);
    GroupsCoverCases(cases);
    forall i | 0 <= i < |groups|
      ensures env.RunGroup(groups[i]).Err? <==> exists c :: c in groups[i] && env.Breaks(c)
      ensures env.RunGroup(groups[i]).Ok? ==> env.RunGroup(groups[i]).value == env.RecordsOf(groups[i])
    {
      assert groups[i][0] in groups[i];
      GroupRunsItsCases(env, groups[i]);
    }
    if SomeRejects(groups, env.RunGroup) {
      var i :| 0 <= i < |groups| && env.RunGroup(groups[i]).Err?;
      var c :| c in groups[i] && env.Breaks(c);
      assert c in cases;
    }
    if c :| c in cases && env.Breaks(c) {
      var i :| 0 <= i < |groups| && c in groups[i];
      assert env.RunGroup(groups[i]).Err?;
    }
  }

  /** Groups, runs and flattens. The harness rejects exactly if there is a worker and some case breaks its
      group. Otherwise the results are those of the cases, index for index, also across groups; and without
      a worker they stay missing. */
  method RunAll(fixtures: seq<Fixture>, workspace: Option<string>, concurrency: int, env: Environment)
    returns (cases: seq<TestCase>, expectedFailures: set<string>, r: Result<Option<seq<Record>>, string>)
    requires forall i, j :: 0 <= i < j < |fixtures| ==> fixtures[i].dir != fixtures[j].dir
    ensures cases == Flatten(CaseBlocks(fixtures, workspace))
    ensures forall caseLabel :: caseLabel in expectedFailures <==> IsExpected(cases, caseLabel)
    ensures r.Err? <==> concurrency >= 1 && exists c :: c in cases && env.Breaks(c)
    ensures r.Err? ==> exists i :: 0 <= i < |Groups(cases)| && env.RunGroup(Groups(cases)[i]) == Err(r.error)
    ensures r.Ok? ==> (r.value.Some? <==> concurrency >= 1 || cases == [])
    ensures r.Ok? && r.value.Some? ==> r.value.value == env.RecordsOf(cases)
  {
    hide Contiguous, GroupKeys, GroupsFor, CasesFor, SomeRejects;
    cases, expectedFailures := BuildTestCases(fixtures, workspace);
    if cases == [] {
      return cases, expectedFailures, Ok(Some([]));
    }
    var groups := GroupByFixture(cases);
    BuiltCasesAreContiguous(fixtures, workspace);
    ContiguousGroupsFlatten(cases);
    GroupBreaksExactlyWhenCaseBreaks(env, cases);
    var groupResults := RunWithConcurrency(groups, concurrency, env.RunGroup);
    if groupResults.Err? {
      return cases, expectedFailures, Err(groupResults.error);
    }
    assert groups != [];
    if exists i :: 0 <= i < |groups| && groupResults.value[i].None? {
      return cases, expectedFailures, Ok(None);
    }
    assert groupResults.value[0].Some?;
    var flat: seq<Record> := [];
    ghost var parts: seq<seq<Record>> := [];
    for i := 0 to |groups|
      invariant |parts| == i && forall j :: 0 <= j < i ==> parts[j] == env.RecordsOf(groups[j])
      invariant concurrency >= 1 && flat == Flatten(parts)
    {
      FlattenSnoc(parts, groupResults.value[i].value);
      flat := flat + groupResults.value[i].value;
      parts := parts + [groupResults.value[i].value];
    }
    GroupsYieldRecords(env, groups, parts);
    r := Ok(Some(flat));
  }

  function Filter(rs: seq<Record>, keep: Record -> bool): seq<Record> {
    if rs == [] then [] else (if keep(rs[0]) then [rs[0]] else []) + Filter(rs[1..], keep)
  }

  lemma {:induction false} FilterHas(rs: seq<Record>, keep: Record -> bool)
    ensures forall r :: r in Filter(rs, keep) <==> r in rs && keep(r)
  {
    if rs != [] {
      FilterHas(rs[1..], keep);
      assert forall r :: r in rs <==> r == rs[0] || r in rs[1..];
    }
  }

  /** A filter and its complement divide the results, each of which keeps its number of occurrences. */
  lemma {:induction false} FilterDivides(rs: seq<Record>, keep: Record -> bool, drop: Record -> bool)
    requires forall r :: drop(r) == !keep(r)
    ensures multiset(Filter(rs, keep)) + multiset(Filter(rs, drop)) == multiset(rs)
    ensures |Filter(rs, keep)| + |Filter(rs, drop)| == |rs|
  {
    if rs != [] {
      FilterDivides(rs[1..], keep, drop);
      assert rs == [rs[0]] + rs[1..];
    }
  }

  /** The classification of results: every result is passed, an expected failure or an unexpected one. */
  method Classify(results: seq<Record>, expectedFailures: set<string>)
    returns (passed: seq<Record>, expectedFailed: seq<Record>, unexpectedFailed: seq<Record>)
    ensures multiset(passed) + multiset(expectedFailed) + multiset(unexpectedFailed) == multiset(results)
    ensures |passed| + |expectedFailed| + |unexpectedFailed| == |results|
    ensures forall r :: r in passed <==> r in results && r.success
    ensures forall r :: r in expectedFailed <==> r in results && !r.success && r.caseLabel in expectedFailures
    ensures forall r :: r in unexpectedFailed <==> r in results && !r.success && r.caseLabel !in expectedFailures
  {
    hide Filter;
    var succeeded, failed := (r: Record) => r.success, (r: Record) => !r.success;
    var expected := (r: Record) => r.caseLabel in expectedFailures;
    var unexpected := (r: Record) => r.caseLabel !in expectedFailures;
    passed := Filter(results, succeeded);
    var allFailures := Filter(results, failed);
    expectedFailed := Filter(allFailures, expected);
    unexpectedFailed := Filter(allFailures, unexpected);
    FilterHas(results, succeeded);
    FilterHas(results, failed);
    FilterHas(allFailures, expected);
    FilterHas(allFailures, unexpected);
    FilterDivides(results, succeeded, failed);
    FilterDivides(allFailures, expected, unexpected);
  }

  // ---------- Classification by label ----------

  /** Cases with the same label agree on whether they are expected to fail. */
  ghost predicate LabelsTellFlags(cases: seq<TestCase>) {
    forall c, d :: c in cases && d in cases && c.caseLabel == d.caseLabel ==> c.expectedFailure == d.expectedFailure
  }

  /** A failure is classified as its own case says exactly if no two cases share a label and disagree. */
  lemma LabelsClassifyExactlyWhenUnambiguous(cases: seq<TestCase>)
    ensures (forall c :: c in cases ==> (IsExpected(cases, c.caseLabel) <==> c.expectedFailure))
       <==> LabelsTellFlags(cases)
  {
    if forall c :: c in cases ==> (IsExpected(cases, c.caseLabel) <==> c.expectedFailure) {
      forall c, d | c in cases && d in cases && c.caseLabel == d.caseLabel
        ensures c.expectedFailure == d.expectedFailure
      {
        assert IsExpected(cases, c.caseLabel) <==> IsExpected(cases, d.caseLabel);
      }
    }
  }

  lemma LabelParts(name: string, target: string, name': string, target': string)
    requires '→' !in name && '→' !in name'
    requires name + " → " + target == name' + " → " + target'
    ensures name == name' && target == target'
  {
    var s := name + " → " + target;
    assert s[|name| + 1] == '→' && s[|name'| + 1] == '→';
    assert forall i :: 0 <= i < |name| ==> s[i] == name[i] != '→';
    assert forall i :: 0 <= i < |name'| ==> s[i] == name'[i] != '→';
    assert s[|name|] == ' ' == s[|name'|];
    assert |name| == |name'|;
    assert name == s[..|name|] == name' && target == s[|name| + 3..] == target';
  }

  lemma {:induction false} CaseIsOfFixture(f: Fixture, targets: seq<string>, workspace: Option<string>)
    ensures forall c :: c in CasesOfTargets(f, targets, workspace) ==> c == CaseOf(f, c.target)
  {
    if targets != [] {
      CaseIsOfFixture(f, targets[..|targets| - 1], workspace);
    }
  }

  lemma BuiltCaseHasFixture(fixtures: seq<Fixture>, workspace: Option<string>, c: TestCase) returns (f: Fixture)
    requires c in Flatten(CaseBlocks(fixtures, workspace))
    ensures f in fixtures && c == CaseOf(f, c.target)
  {
    FlattenHas(CaseBlocks(fixtures, workspace), c);
    var i :| 0 <= i < |fixtures| && c in CaseBlocks(fixtures, workspace)[i];
    f := fixtures[i];
    CaseIsOfFixture(f, f.pruneTargets, workspace);
  }

  /** Fixtures with different names, none of which contains an arrow, give unambiguous labels. */
  lemma ArrowFreeNamesAreUnambiguous(fixtures: seq<Fixture>, workspace: Option<string>)
    requires forall i, j :: 0 <= i < j < |fixtures| ==> fixtures[i].name != fixtures[j].name
    requires forall f :: f in fixtures ==> '→' !in f.name
    ensures LabelsTellFlags(Flatten(CaseBlocks(fixtures, workspace)))
  {
    var cases := Flatten(CaseBlocks(fixtures, workspace));
    forall c, d | c in cases && d in cases && c.caseLabel == d.caseLabel
      ensures c.expectedFailure == d.expectedFailure
    {
      var f := BuiltCaseHasFixture(fixtures, workspace, c);
      var g := BuiltCaseHasFixture(fixtures, workspace, d);
      LabelParts(f.name, c.target, g.name, d.target);
    }
  }

  /** With an arrow in a name they may be ambiguous: a failure that nobody expects then counts as expected. */
  lemma ArrowInNameIsAmbiguous()
    ensures var f, g := Fixture("a", "1", ["b → c"], ["b → c"]), Fixture("a → b", "2", ["c"], []);
            !LabelsTellFlags(Flatten(CaseBlocks([f, g], None)))
  {
    var f, g := Fixture("a", "1", ["b → c"], ["b → c"]), Fixture("a → b", "2", ["c"], []);
    var c, d := CaseOf(f, "b → c"), CaseOf(g, "c");
    assert ["b → c"][..0] == [] && ["c"][..0] == [];
    assert CasesOfTargets(f, ["b → c"], None) == [] + [c] && CasesOfTargets(g, ["c"], None) == [] + [d];
    assert CaseBlocks([f, g], None)[0] == [c] && CaseBlocks([f, g], None)[1] == [d];
    assert CaseBlocks([f, g], None) == [[c], [d]];
    assert Flatten([[c], [d]]) == [c] + Flatten([[d]]);
    assert Flatten([[d]]) == [d] + Flatten<TestCase>([]);
    assert c in [c] + [d] && d in [c] + [d];
    assert c.caseLabel == "a" + " → " + "b → c" == "a → b" + " → " + "c" == d.caseLabel;
  }
}
