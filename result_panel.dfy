/**
 * What the result panel (components/result/result-panel.tsx) shows for the
 * store's compile, test and deploy state: the error classification of
 * `ParsedErrorMessage`, and the choice between the spinner, the placeholder
 * and the report in `CompileResults`, `TestResults` and `DeployResults`.
 * Markup and styling are left out; a view records which blocks appear and
 * what text they carry. A JavaScript value is "truthy" here as `Filled`.
 */
module ResultPanel {
  import opened Wrappers
  import JsText
  import opened PlaygroundTypes
  import Store = PlaygroundStore
  import ApiServer

  const RedefinitionPhrase := "redefinition of table"
  const ParsePhrase := "Unable to parse Move package manifest"
  /** The fixed part of the regex `/redefinition of table `(\w+)`/` before its group. */
  const TablePrefix := RedefinitionPhrase + " `"

  /** A string or absent value is truthy: present and not the empty string. */
  predicate Filled(o: Option<string>) {
    o.Some? && o.value != ""
  }

  // ---------------------------------------------------------------------
  // ParsedErrorMessage
  // ---------------------------------------------------------------------

  /** The regex matches at `p`: the prefix, a non-empty run of `\w`, then a backtick. */
  predicate TableMatchAt(s: string, p: nat) {
    JsText.OccursAt(s, TablePrefix, p) &&
    var q := p + |TablePrefix|;
    var k := JsText.RunLength(s, q, JsText.Word);
    k > 0 && q + k < |s| && s[q + k] == '`'
  }

  /** The leftmost position at or after `from` where the regex matches, as `String.prototype.match` finds it. */
  function TableMatchFrom(s: string, from: nat): (r: Option<nat>)
    requires from <= |s|
    ensures r.Some? ==> from <= r.value && TableMatchAt(s, r.value)
    ensures r.Some? ==> forall j :: from <= j < r.value ==> !TableMatchAt(s, j)
    ensures r.None? ==> forall j :: from <= j <= |s| ==> !TableMatchAt(s, j)
    decreases |s| - from
  {
    if TableMatchAt(s, from) then Some(from)
    else if from == |s| then None
    else TableMatchFrom(s, from + 1)
  }

  /** Group 1 of a match at `p`: the run of word characters after the prefix. */
  function Captured(s: string, p: nat): (name: string)
    requires TableMatchAt(s, p)
    ensures name != "" && forall i :: 0 <= i < |name| ==> JsText.IsWordChar(name[i])
    ensures JsText.OccursAt(s, TablePrefix + name + "`", p)
  {
    var q := p + |TablePrefix|;
    var k := JsText.RunLength(s, q, JsText.Word);
    assert s[p..q + k + 1] == s[p..q] + s[q..q + k] + [s[q + k]];
    s[q..q + k]
  }

  /**
   * The section name shown for a duplicate section: group 1 of the leftmost
   * match, or "unknown" when the regex does not match anywhere.
   */
  function TableName(message: string): (name: string)
    ensures (forall p: nat :: !TableMatchAt(message, p)) ==> name == "unknown"
    ensures TableMatchFrom(message, 0).Some? ==>
      name != "" && (forall i :: 0 <= i < |name| ==> JsText.IsWordChar(name[i])) &&
      JsText.OccursAt(message, TablePrefix + name + "`", TableMatchFrom(message, 0).value)
  {
    match TableMatchFrom(message, 0)
    case None => "unknown"
    case Some(p) => Captured(message, p)
  }

  /** The three renderings of `ParsedErrorMessage`. */
  datatype ErrorView = DuplicateSection(table: string) | ManifestUnparsable | Verbatim(message: string)

  /**
   * A message naming a table redefinition is a duplicate section, whatever
   * else it contains; otherwise one naming the manifest parse failure is a
   * parse error; anything else is shown as it is.
   */
  function Classify(message: string): (v: ErrorView)
    ensures v.DuplicateSection? <==> JsText.Includes(message, RedefinitionPhrase)
    ensures v.DuplicateSection? ==> v.table == TableName(message)
    ensures v.ManifestUnparsable? <==> !JsText.Includes(message, RedefinitionPhrase) && JsText.Includes(message, ParsePhrase)
    ensures v.Verbatim? ==> v.message == message
  {
    if JsText.Includes(message, RedefinitionPhrase) then DuplicateSection(TableName(message))
    else if JsText.Includes(message, ParsePhrase) then ManifestUnparsable
    else Verbatim(message)
  }

  /** RunLength stops exactly at the end of a run of word characters that a backtick closes. */
  lemma WordRun(m: string, q: nat, name: string)
    requires q + |name| < |m| && m[q..q + |name|] == name && m[q + |name|] == '`'
    requires forall i :: 0 <= i < |name| ==> JsText.IsWordChar(name[i])
    ensures JsText.RunLength(m, q, JsText.Word) == |name|
  {
    assert !JsText.InClass(m[q + |name|], JsText.Word);
    assert forall i :: q <= i < q + |name| ==> m[i] == name[i - q];
    assert forall i :: q <= i < q + |name| ==> JsText.InClass(m[i], JsText.Word);
  }

  /**
   * A message that reports `name` between backticks after the phrase, with no
   * earlier match, is shown as a duplicate of that section.
   */
  lemma NamedTable(pre: string, name: string, post: string)
    requires name != "" && forall i :: 0 <= i < |name| ==> JsText.IsWordChar(name[i])
    requires forall p :: 0 <= p < |pre| ==> !TableMatchAt(pre + TablePrefix + name + "`" + post, p)
    ensures TableName(pre + TablePrefix + name + "`" + post) == name
    ensures Classify(pre + TablePrefix + name + "`" + post) == DuplicateSection(name)
  {
    var m := pre + TablePrefix + name + "`" + post;
    NamedMatch(pre, name, post);
    assert TableMatchFrom(m, 0) == Some(|pre|);
    PhraseBeforeName(pre, name, post);
  }

  /** The regex matches right after `pre`, and its group is `name`. */
  lemma NamedMatch(pre: string, name: string, post: string)
    requires name != "" && forall i :: 0 <= i < |name| ==> JsText.IsWordChar(name[i])
    ensures var m := pre + TablePrefix + name + "`" + post;
      TableMatchAt(m, |pre|) && Captured(m, |pre|) == name
  {
    var m := pre + TablePrefix + name + "`" + post;
    var q := |pre| + |TablePrefix|;
    assert m[|pre|..q] == TablePrefix;
    assert m[q..q + |name|] == name;
    assert m[q + |name|] == '`';
    WordRun(m, q, name);
  }

  /** The phrase that opens the regex occurs wherever the regex's prefix does. */
  lemma PhraseBeforeName(pre: string, name: string, post: string)
    ensures JsText.Includes(pre + TablePrefix + name + "`" + post, RedefinitionPhrase)
  {
    var m := pre + TablePrefix + name + "`" + post;
    assert m[|pre|..|pre| + |RedefinitionPhrase|] == RedefinitionPhrase;
    assert JsText.OccursAt(m, RedefinitionPhrase, |pre|);
  }

  /** Without the backtick-quoted name the section is reported as "unknown". */
  lemma UnnamedTable(message: string)
    requires JsText.Includes(message, RedefinitionPhrase)
    requires !JsText.Includes(message, "`")
    ensures Classify(message) == DuplicateSection("unknown")
  {
    forall p: nat ensures !TableMatchAt(message, p) {
      if JsText.OccursAt(message, TablePrefix, p) {
        var j := p + |TablePrefix| - 1;
        assert message[p..p + |TablePrefix|][|TablePrefix| - 1] == message[j];
        JsText.IncludesChar(message, '`');
      }
    }
  }

  /** A build failure the service relays that names a redefined table is shown as a duplicate section. */
  lemma RelayedDuplicate(detail: string)
    requires JsText.Includes(detail, RedefinitionPhrase)
    ensures Classify("编译错误: 编译失败: " + detail).DuplicateSection?
  {
    JsText.IncludesAfter("编译错误: 编译失败: ", detail, RedefinitionPhrase);
  }

  // ---------------------------------------------------------------------
  // CompileResults, TestResults, DeployResults
  // ---------------------------------------------------------------------

  /** A tab shows a spinner while its flag is set, else a placeholder until a result is stored, else the report. */
  datatype Pane<R> = Busy | Placeholder | Report(report: R)

  /** One line of the module list: the name and `bytecode_size[index]`, which is `undefined` past the end. */
  datatype ModuleRow = ModuleRow(name: string, size: Option<nat>)

  /** One bytecode card: its caption `module_names[index]` (possibly `undefined`) and the Base64 text. */
  datatype BytecodeCard = BytecodeCard(caption: Option<string>, bytecode: string)

  datatype CompileView = CompileView(
    success: bool,
    timeMs: Option<nat>,
    modules: seq<ModuleRow>,
    cards: seq<BytecodeCard>,
    error: Option<ErrorView>,
    warnings: seq<string>)

  function At<T>(xs: seq<T>, i: nat): Option<T> {
    if i < |xs| then Some(xs[i]) else None
  }

  function ModuleRows(names: seq<string>, sizes: seq<nat>): (rows: seq<ModuleRow>)
    ensures |rows| == |names|
    ensures forall i :: 0 <= i < |rows| ==> rows[i].name == names[i] && rows[i].size == At(sizes, i)
  {
    seq(|names|, i requires 0 <= i < |names| => ModuleRow(names[i], At(sizes, i)))
  }

  function BytecodeCards(codes: seq<string>, names: seq<string>): (cards: seq<BytecodeCard>)
    ensures |cards| == |codes|
    ensures forall i :: 0 <= i < |cards| ==> cards[i].bytecode == codes[i] && cards[i].caption == At(names, i)
  {
    seq(|codes|, i requires 0 <= i < |codes| => BytecodeCard(At(names, i), codes[i]))
  }

  /**
   * The compile report: time, modules and bytecodes only on success; the
   * classified error only for a failure with a non-empty message; the
   * warnings whenever there are any.
   */
  function CompileReport(r: CompileResponse): (v: CompileView)
    ensures v.success == r.success && v.warnings == r.warnings
    ensures v.timeMs.Some? <==> r.success
    ensures v.timeMs.Some? ==> v.timeMs.value == r.compileTimeMs
    ensures r.success ==> v.modules == ModuleRows(r.moduleNames, r.bytecodeSize) && v.cards == BytecodeCards(r.bytecodeBase64, r.moduleNames)
    ensures !r.success ==> v.modules == [] && v.cards == []
    ensures v.error.Some? <==> !r.success && Filled(r.errorMessage)
    ensures v.error.Some? ==> v.error.value == Classify(r.errorMessage.value)
  {
    CompileView(
      r.success,
      if r.success then Some(r.compileTimeMs) else None,
      if r.success then ModuleRows(r.moduleNames, r.bytecodeSize) else [],
      if r.success then BytecodeCards(r.bytecodeBase64, r.moduleNames) else [],
      if !r.success && Filled(r.errorMessage) then Some(Classify(r.errorMessage.value)) else None,
      r.warnings)
  }

  /** Every failure the service reports carries a message, so its error block always appears. */
  lemma ServiceErrorShown(message: string)
    requires message != ""
    ensures CompileReport(ApiServer.CompileError(message)).error == Some(Classify(message))
    ensures CompileReport(ApiServer.CompileError(message)).modules == []
  {
  }

  /**
   * For a build the service reports, every module row has its size and every
   * bytecode card its caption: nothing renders as `undefined`.
   */
  lemma BuiltReportComplete(r: CompileResponse, units: seq<ApiServer.CompiledUnit>)
    requires r.success
    requires ApiServer.NamedAfterBuild(units, r.bytecodeBase64, r.moduleNames, r.bytecodeSize)
    ensures forall i :: 0 <= i < |CompileReport(r).modules| ==> CompileReport(r).modules[i].size.Some?
    ensures forall i :: 0 <= i < |CompileReport(r).cards| ==> CompileReport(r).cards[i].caption.Some?
  {
    assert |r.moduleNames| == |r.bytecodeSize| >= |r.bytecodeBase64|;
  }

  datatype TestView = TestView(success: bool, passed: nat, run: nat, details: seq<TestCase>, output: Option<string>)

  /** The test report: the badge counts passed of run, the details, and the output only when truthy. */
  function TestReport(r: TestResponse): (v: TestView)
    ensures v.success == r.success && v.passed == r.testsPassed && v.run == r.testsRun && v.details == r.details
    ensures v.output.Some? <==> Filled(r.output)
    ensures v.output.Some? ==> v.output == r.output
  {
    TestView(r.success, r.testsPassed, r.testsRun, r.details, if Filled(r.output) then r.output else None)
  }

  datatype DeployLayout = Expanded | Compact

  /** The blocks of the deploy report; `fullOutput` is the whole command output. */
  datatype DeployView = DeployView(
    layout: DeployLayout,
    success: bool,
    packageId: Option<string>,
    digest: Option<string>,
    error: Option<string>,
    fullOutput: Option<string>)

  function Truthy(o: Option<string>): Option<string> {
    if Filled(o) then o else None
  }

  /**
   * The deploy report: the expanded layout exactly when the panel is
   * expanded and a successful deploy left output; the compact layout
   * otherwise, which also shows the error and shows the output only for a
   * successful deploy.
   */
  function DeployReport(expanded: bool, d: DeployResponse): (v: DeployView)
    ensures v.layout == Expanded <==> expanded && d.success && Filled(d.output)
    ensures v.success == d.success && v.packageId == Truthy(d.packageId) && v.digest == Truthy(d.transactionDigest)
    ensures v.layout == Expanded ==> v.error.None? && v.fullOutput == d.output
    ensures v.layout == Compact ==> v.error == Truthy(d.error) && v.fullOutput == (if d.success then Truthy(d.output) else None)
  {
    if expanded && d.success && Filled(d.output) then
      DeployView(Expanded, true, Truthy(d.packageId), Truthy(d.transactionDigest), None, d.output)
    else
      DeployView(Compact, d.success, Truthy(d.packageId), Truthy(d.transactionDigest), Truthy(d.error),
        if d.success then Truthy(d.output) else None)
  }

  /** Whichever layout is chosen, the full output appears exactly for a successful deploy with output. */
  lemma OutputShownEitherWay(expanded: bool, d: DeployResponse)
    ensures DeployReport(expanded, d).fullOutput.Some? <==> d.success && Filled(d.output)
    ensures DeployReport(expanded, d).fullOutput.Some? ==> DeployReport(expanded, d).fullOutput == d.output
  {
  }

  /** Expanding the panel changes a deploy report only for a successful deploy with output, and then only by the layout and the error block. */
  lemma ExpandingKeepsContent(d: DeployResponse)
    ensures !(d.success && Filled(d.output)) ==> DeployReport(true, d) == DeployReport(false, d)
    ensures DeployReport(true, d).(layout := Compact, error := Truthy(d.error)) == DeployReport(false, d)
  {
  }

  function CompilePanel(s: Store.State): (p: Pane<CompileView>)
    ensures p.Busy? <==> s.isCompiling
    ensures p.Placeholder? <==> !s.isCompiling && s.compileResult.None?
    ensures p.Report? ==> s.compileResult.Some? && p.report == CompileReport(s.compileResult.value)
  {
    if s.isCompiling then Busy
    else if s.compileResult.None? then Placeholder
    else Report(CompileReport(s.compileResult.value))
  }

  function TestPanel(s: Store.State): (p: Pane<TestView>)
    ensures p.Busy? <==> s.isTesting
    ensures p.Placeholder? <==> !s.isTesting && s.testResult.None?
    ensures p.Report? ==> s.testResult.Some? && p.report == TestReport(s.testResult.value)
  {
    if s.isTesting then Busy
    else if s.testResult.None? then Placeholder
    else Report(TestReport(s.testResult.value))
  }

  function DeployPanel(s: Store.State): (p: Pane<DeployView>)
    ensures p.Busy? <==> s.isDeploying
    ensures p.Placeholder? <==> !s.isDeploying && s.deployResult.None?
    ensures p.Report? ==> s.deployResult.Some? && p.report == DeployReport(s.resultPanelExpanded, s.deployResult.value)
  {
    if s.isDeploying then Busy
    else if s.deployResult.None? then Placeholder
    else Report(DeployReport(s.resultPanelExpanded, s.deployResult.value))
  }

  /** Raising a loading flag shows the spinner over any stored result; storing a result shows its report. */
  lemma PanelsFollowStore(s: Store.State, c: CompileResponse, t: TestResponse, d: DeployResponse)
    ensures CompilePanel(Store.Reduce(s, Store.SetCompileLoading(true))) == Busy
    ensures TestPanel(Store.Reduce(s, Store.SetTestLoading(true))) == Busy
    ensures DeployPanel(Store.Reduce(s, Store.SetDeployLoading(true))) == Busy
    ensures CompilePanel(Store.Reduce(s, Store.SetCompileResult(c))) == Report(CompileReport(c))
    ensures TestPanel(Store.Reduce(s, Store.SetTestResult(t))) == Report(TestReport(t))
    ensures DeployPanel(Store.Reduce(s, Store.SetDeployResult(d))) == Report(DeployReport(s.resultPanelExpanded, d))
  {
    LoadingShowsBusy(s);
    CompileShowsReport(s, c);
    TestShowsReport(s, t);
    DeployShowsReport(s, d);
  }

  lemma LoadingShowsBusy(s: Store.State)
    ensures CompilePanel(Store.Reduce(s, Store.SetCompileLoading(true))) == Busy
    ensures TestPanel(Store.Reduce(s, Store.SetTestLoading(true))) == Busy
    ensures DeployPanel(Store.Reduce(s, Store.SetDeployLoading(true))) == Busy
  {
  }

  lemma CompileShowsReport(s: Store.State, c: CompileResponse)
    ensures CompilePanel(Store.Reduce(s, Store.SetCompileResult(c))) == Report(CompileReport(c))
  {
  }

  lemma TestShowsReport(s: Store.State, t: TestResponse)
    ensures TestPanel(Store.Reduce(s, Store.SetTestResult(t))) == Report(TestReport(t))
  {
  }

  lemma DeployShowsReport(s: Store.State, d: DeployResponse)
    ensures DeployPanel(Store.Reduce(s, Store.SetDeployResult(d))) == Report(DeployReport(s.resultPanelExpanded, d))
  {
  }

  /** Toggling the panel leaves the compile and test tabs as they were. */
  lemma ToggleOnlyTouchesDeploy(s: Store.State)
    ensures CompilePanel(Store.Reduce(s, Store.ToggleResultPanel)) == CompilePanel(s)
    ensures TestPanel(Store.Reduce(s, Store.ToggleResultPanel)) == TestPanel(s)
  {
  }
}
