/**
 * The compiler service (api/src/main.rs): the checks and result shaping of
 * the deploy and test endpoints, the Move.toml it writes for a compile, the
 * bookkeeping of module names and sizes after a build, the compile endpoint's
 * defaults, and the command-line argument loop. Running `sui`, building the
 * package and the file system are not modelled: what a run or a build produced
 * comes in as a parameter.
 */
module ApiServer {
  import opened Wrappers
  import opened Seqs
  import JsText
  import opened RustText
  import opened Decimal
  import opened PlaygroundTypes
  import Store = PlaygroundStore
  import opened MoveManifest
  import Actions = PlaygroundActions

  // ---------------------------------------------------------------- command check

  /**
   * The arguments handed to `sui`: the command's white-space tokens after the
   * first, or `None` (a BadRequest) when there are fewer than two tokens or
   * the first is not `sui`.
   */
  function CommandArgs(command: string): (r: Option<seq<string>>)
    ensures var ts := SplitWhitespace(command);
      (r.None? <==> |ts| < 2 || ts[0] != "sui") &&
      (r.Some? ==> ts == ["sui"] + r.value && |r.value| >= 1)
  {
    var parts := SplitWhitespace(command);
    if |parts| < 2 || parts[0] != "sui" then None
    else
      assert parts == [parts[0]] + parts[1..];
      Some(parts[1..])
  }

  /** A token followed by a space splits off as the first token. */
  lemma TokenFirst(t: string, rest: string)
    requires IsToken(t)
    ensures SplitWhitespace(t + " " + rest) == [t] + SplitWhitespace(rest)
  {
    var s := t + " " + rest;
    var k := TokenLength(s, 0);
    assert s[|t|] == ' ';
    assert forall j :: 0 <= j < |t| ==> s[j] == t[j];
    assert k == |t|;
    assert s[..k] == t;
    assert s[k..] == " " + rest;
    assert (" " + rest)[1..] == rest;
  }

  lemma TokenAlone(t: string)
    requires IsToken(t)
    ensures SplitWhitespace(t) == [t]
  {
    assert TokenLength(t, 0) == |t|;
    assert t[..|t|] == t && t[|t|..] == "";
  }

  /** Splitting tokens joined by single spaces gives them back. */
  lemma {:induction false} SplitSpaced(ts: seq<string>)
    requires |ts| >= 1 && forall i :: 0 <= i < |ts| ==> IsToken(ts[i])
    ensures SplitWhitespace(JsText.Join(ts, ' ')) == ts
    decreases |ts|
  {
    if |ts| == 1 {
      TokenAlone(ts[0]);
    } else {
      SplitSpaced(ts[1..]);
      TokenFirst(ts[0], JsText.Join(ts[1..], ' '));
      assert [ts[0]] + ts[1..] == ts;
    }
  }

  lemma ArgsAfterSui(command: string, args: seq<string>)
    requires SplitWhitespace(command) == ["sui"] + args && args != []
    ensures CommandArgs(command) == Some(args)
  {
  }

  lemma TestCommandSpaced(p: string)
    ensures Actions.TestCommand(p) == JsText.Join(["sui", "move", "test", "--path", p], ' ')
  {
    var ts := ["sui", "move", "test", "--path", p];
    assert JsText.Join(ts[4..], ' ') == p;
    assert JsText.Join(ts[3..], ' ') == "--path " + p;
    assert JsText.Join(ts[2..], ' ') == "test --path " + p;
    assert JsText.Join(ts[1..], ' ') == "move test --path " + p;
  }

  lemma JoinStep(a: string, rest: seq<string>)
    requires |rest| >= 1
    ensures JsText.Join([a] + rest, ' ') == a + " " + JsText.Join(rest, ' ')
  {
    assert ([a] + rest)[1..] == rest;
  }

  lemma DeployTailSpaced()
    ensures JsText.Join(["--gas-budget", "100000000"], ' ') == "--gas-budget 100000000"
  {
    JoinStep("--gas-budget", ["100000000"]);
  }

  lemma DeployHeadSpaced()
    ensures JsText.Join(["sui", "client", "publish"], ' ') == "sui client publish"
  {
    JoinStep("client", ["publish"]);
    JoinStep("sui", ["client", "publish"]);
  }

  lemma DeployCommandSpaced(p: string)
    ensures Actions.DeployCommand(p) == JsText.Join(["sui", "client", "publish", p, "--gas-budget", "100000000"], ' ')
  {
    var tail := ["--gas-budget", "100000000"];
    DeployTailSpaced();
    JoinStep(p, tail);
    var rest := p + " " + "--gas-budget 100000000";
    assert rest == p + " --gas-budget 100000000";
    assert JsText.Join([p] + tail, ' ') == rest;
    DeployHeadSpaced();
    JsText.JoinConcat(["sui", "client", "publish"], [p] + tail, ' ');
    assert ["sui", "client", "publish"] + ([p] + tail) == ["sui", "client", "publish", p, "--gas-budget", "100000000"];
  }

  /**
   * The hook's test command passes the check with exactly the expected
   * arguments, as long as the bytecode path is one token (a path holding
   * white space would be split into several arguments).
   */
  lemma TestCommandAccepted(p: string)
    requires IsToken(p)
    ensures CommandArgs(Actions.TestCommand(p)) == Some(["move", "test", "--path", p])
  {
    var ts := ["sui", "move", "test", "--path", p];
    TestCommandSpaced(p);
    SplitSpaced(ts);
    ArgsAfterSui(Actions.TestCommand(p), ts[1..]);
  }

  /** So does its deploy command. */
  lemma DeployCommandAccepted(p: string)
    requires IsToken(p)
    ensures CommandArgs(Actions.DeployCommand(p)) == Some(["client", "publish", p, "--gas-budget", "100000000"])
  {
    var ts := ["sui", "client", "publish", p, "--gas-budget", "100000000"];
    DeployCommandSpaced(p);
    SplitSpaced(ts);
    ArgsAfterSui(Actions.DeployCommand(p), ts[1..]);
  }

  // ---------------------------------------------------------------- package id scan

  /** The first token, from `from` on, starting with `0x`; `|ts|` when none does. */
  function HexIndex(ts: seq<string>, from: nat): (k: nat)
    requires from <= |ts|
    ensures from <= k <= |ts|
    ensures forall j :: from <= j < k ==> !JsText.StartsWith(ts[j], "0x")
    ensures k < |ts| ==> JsText.StartsWith(ts[k], "0x")
    decreases |ts| - from
  {
    if from == |ts| || JsText.StartsWith(ts[from], "0x") then from else HexIndex(ts, from + 1)
  }

  /** `tokens.find(|s| s.starts_with("0x"))`. */
  function FirstHex(ts: seq<string>): (r: Option<string>)
    ensures r.None? <==> forall j :: 0 <= j < |ts| ==> !JsText.StartsWith(ts[j], "0x")
    ensures r.Some? ==> r.value in ts && JsText.StartsWith(r.value, "0x")
  {
    var k := HexIndex(ts, 0);
    if k < |ts| then Some(ts[k]) else None
  }

  /** `line.split_whitespace().find(|s| s.starts_with("0x"))`. */
  function IdOnLine(line: string): (r: Option<string>)
    ensures r.Some? ==> r.value in SplitWhitespace(line) && JsText.StartsWith(r.value, "0x") && IsToken(r.value)
  {
    FirstHex(SplitWhitespace(line))
  }

  predicate NamesPackage(line: string) {
    JsText.Includes(line, "包ID") || JsText.Includes(line, "Package ID")
  }

  /** A line the scan stops at. */
  predicate Qualifies(line: string) {
    NamesPackage(line) && IdOnLine(line).Some?
  }

  function FirstQualifying(lines: seq<string>, from: nat): (k: nat)
    requires from <= |lines|
    ensures from <= k <= |lines|
    ensures forall j :: from <= j < k ==> !Qualifies(lines[j])
    ensures k < |lines| ==> Qualifies(lines[k])
    decreases |lines| - from
  {
    if from == |lines| || Qualifies(lines[from]) then from else FirstQualifying(lines, from + 1)
  }

  /** The first `0x` token of the first qualifying line. */
  function FirstIdIn(ls: seq<string>): (r: Option<string>)
    ensures r.None? <==> forall i :: 0 <= i < |ls| ==> !Qualifies(ls[i])
    ensures r.Some? ==>
      var k := FirstQualifying(ls, 0);
      k < |ls| && NamesPackage(ls[k]) && r.value in SplitWhitespace(ls[k]) &&
      JsText.StartsWith(r.value, "0x") && IsToken(r.value)
  {
    var k := FirstQualifying(ls, 0);
    if k < |ls| then IdOnLine(ls[k]) else None
  }

  /**
   * The package id the deploy endpoint reports: the first `0x` token of the
   * first stdout line that mentions `包ID` or `Package ID` and has one.
   */
  function PackageIdOf(stdout: string): Option<string> {
    FirstIdIn(Lines(stdout))
  }

  /** The scan of lines 335-344: a `for` over the lines with `break` at the first hit. */
  method ScanPackageId(stdout: string) returns (id: Option<string>)
    ensures id == PackageIdOf(stdout)
  {
    id := None;
    var lines := Lines(stdout);
    for i := 0 to |lines|
      invariant id.None? && forall j :: 0 <= j < i ==> !Qualifies(lines[j])
    {
      var line := lines[i];
      if JsText.Includes(line, "包ID") || JsText.Includes(line, "Package ID") {
        var found := IdOnLine(line);
        if found.Some? {
          FirstQualifyingIs(lines, 0, i);
          id := found;
          return;
        }
      }
    }
    FirstQualifyingIs(lines, 0, |lines|);
  }

  lemma {:induction false} FirstQualifyingIs(lines: seq<string>, from: nat, k: nat)
    requires from <= k <= |lines|
    requires forall j :: from <= j < k ==> !Qualifies(lines[j])
    requires k < |lines| ==> Qualifies(lines[k])
    ensures FirstQualifying(lines, from) == k
    decreases k - from
  {
    if from < k {
      FirstQualifyingIs(lines, from + 1, k);
    }
  }

  // ---------------------------------------------------------------- deploy and test endpoints

  datatype Status = Ok | BadRequest | InternalServerError

  /** What running `sui` gave: its exit status and output, or the reason it could not start. */
  datatype Run = Exited(success: bool, stdout: string, stderr: string) | SpawnFailed(reason: string)

  datatype DeployReply = DeployReply(success: bool, packageId: Option<string>, output: Option<string>, error: Option<string>)

  datatype TestReply = TestReply(success: bool, output: Option<string>, error: Option<string>)

  const BadCommand := "无效的命令格式，必须是sui开头的命令"

  /**
   * `deploy_handler`. `ran` is the argument list `sui` was started with, if
   * it was started; `run` is what that run gave.
   */
  method DeployHandler(command: string, run: Run) returns (status: Status, ran: Option<seq<string>>, reply: DeployReply)
    ensures ran == CommandArgs(command)
    ensures ran.None? ==> status == BadRequest && reply == DeployReply(false, None, None, Some(BadCommand))
    ensures ran.Some? && run.SpawnFailed? ==>
      status == InternalServerError && reply == DeployReply(false, None, None, Some("执行部署命令失败: " + run.reason))
    ensures ran.Some? && run.Exited? ==>
      status == Ok && reply.success == run.success &&
      reply.output == Some("stdout: " + run.stdout + "\nstderr: " + run.stderr) &&
      (reply.error.Some? <==> !run.success) && (!run.success ==> reply.error == Some(run.stderr)) &&
      reply.packageId == PackageIdOf(run.stdout)
  {
    ran := CommandArgs(command);
    if ran.None? {
      return BadRequest, ran, DeployReply(false, None, None, Some(BadCommand));
    }
    match run
    case SpawnFailed(e) =>
      return InternalServerError, ran, DeployReply(false, None, None, Some("执行部署命令失败: " + e));
    case Exited(success, stdout, stderr) =>
      var packageId := ScanPackageId(stdout);
      reply := DeployReply(success, packageId, Some("stdout: " + stdout + "\nstderr: " + stderr),
                           if success then None else Some(stderr));
      return Ok, ran, reply;
  }

  /** `test_handler`: the same check, and the output laid out under two headings. */
  method TestHandler(command: string, run: Run) returns (status: Status, ran: Option<seq<string>>, reply: TestReply)
    ensures ran == CommandArgs(command)
    ensures ran.None? ==> status == BadRequest && reply == TestReply(false, None, Some(BadCommand))
    ensures ran.Some? && run.SpawnFailed? ==>
      status == InternalServerError && reply == TestReply(false, None, Some("执行测试命令失败: " + run.reason))
    ensures ran.Some? && run.Exited? ==>
      status == Ok && reply.success == run.success &&
      reply.output == Some("# 输出结果：\n" + run.stdout + "\n\n# 错误/警告：\n" + run.stderr) &&
      (reply.error.Some? <==> !run.success) && (!run.success ==> reply.error == Some(run.stderr))
  {
    ran := CommandArgs(command);
    if ran.None? {
      return BadRequest, ran, TestReply(false, None, Some(BadCommand));
    }
    match run
    case SpawnFailed(e) =>
      return InternalServerError, ran, TestReply(false, None, Some("执行测试命令失败: " + e));
    case Exited(success, stdout, stderr) =>
      reply := TestReply(success, Some("# 输出结果：\n" + stdout + "\n\n# 错误/警告：\n" + stderr),
                         if success then None else Some(stderr));
      return Ok, ran, reply;
  }

  // ---------------------------------------------------------------- Move.toml

  /**
   * The Move.toml text `create_temp_source_file` writes: the base, then the
   * request's addresses text verbatim unless it is blank, or the default
   * addresses when the request has none.
   */
  method AssembleManifest(addresses: Option<string>) returns (content: string)
    ensures addresses.None? ==> content == BaseManifest + DefaultAddresses
    ensures addresses.Some? && RustText.Trim(addresses.value) == "" ==> content == BaseManifest
    ensures addresses.Some? && RustText.Trim(addresses.value) != "" ==> content == BaseManifest + addresses.value
  {
    content := BaseManifest;
    if addresses.Some? {
      if RustText.Trim(addresses.value) != "" {
        content := content + addresses.value;
      }
    } else {
      content := content + DefaultAddresses;
    }
  }

  /** Without an addresses text the manifest has `package`, `dependencies` and the default `addresses`, each once. */
  lemma DefaultManifestWellFormed()
    ensures Store.ValidConfig(BaseManifest + DefaultAddresses)
  {
    ManifestHeaders(DefaultAddresses);
    DefaultAddressHeaders();
    Store.ThreeSectionsValid(BaseManifest + DefaultAddresses);
  }

  /** With a blank one it has only `package` and `dependencies`. */
  lemma BareManifestWellFormed()
    ensures Store.ValidConfig(BaseManifest)
  {
    ManifestHeaders("");
    BlankHeaders();
    assert BaseManifest + "" == BaseManifest;
    BaseSectionsValid(BaseManifest);
  }

  lemma BaseSectionsValid(config: string)
    requires Store.Headers(JsText.Split(config, '\n')) == ["package", "dependencies"]
    ensures Store.ValidConfig(config)
  {
    Store.ValidMeaning(config);
    var hs := Store.Headers(JsText.Split(config, '\n'));
    assert hs[..0] == [] && hs[..1] == ["package"];
  }

  /** A manifest the editor's check accepts is never blank: it holds a `[package]` line. */
  lemma ValidNotBlank(config: string)
    requires Store.ValidConfig(config)
    ensures RustText.Trim(config) != ""
  {
    Store.ValidMeaning(config);
    var lines := JsText.Split(config, '\n');
    var i := CollectSource(lines, Store.LineHeader, "package");
    assert JsText.Trim(lines[i]) == "[" + "package" + "]";
    assert '[' in JsText.Trim(lines[i]);
    if '[' !in lines[i] {
      JsText.TrimKeepsOut(lines[i], '[');
    }
    JsText.SplitPieceIn(config, '\n', i, '[');
    var k :| 0 <= k < |config| && config[k] == '[';
    assert !IsWhitespace(config[k]);
    BlankIffWhitespace(config);
  }

  /**
   * What the playground sends is its stored manifest, which passes the
   * editor's check and so holds `[package]`; the server appends it after its
   * own `[package]`, so the written Move.toml repeats a section.
   */
  lemma EditorManifestRepeats(config: string)
    requires Store.ValidConfig(config)
    ensures RustText.Trim(config) != ""
    ensures Store.ConfigVerdict(BaseManifest + config).Duplicate?
  {
    ValidNotBlank(config);
    Store.ValidMeaning(config);
    ManifestHeaders(config);
    Store.VerdictMeaning(BaseManifest + config);
    var hc := Store.Headers(JsText.Split(config, '\n'));
    var hs := ["package", "dependencies"] + hc;
    var p :| 0 <= p < |hc| && hc[p] == "package";
    assert hs[p + 2] == "package" && hs[..p + 2][0] == "package";
    var k := Store.FirstRepeat(hs, 0);
    assert k < |hs|;
  }

  // ---------------------------------------------------------------- module names after a build

  /** A compiled unit: its name and the counts the size estimate reads from the module. */
  datatype CompiledUnit = CompiledUnit(name: string, functionDefs: nat, structDefs: nat, signatures: nat, identifiers: nat)

  /** The rough size shown for a user module. */
  function EstimatedSize(u: CompiledUnit): nat {
    u.functionDefs * 8 + u.structDefs * 16 + u.signatures * 4 + u.identifiers * 12
  }

  /** The user-module filter: the name contains `hello` or starts with `examples::`. */
  predicate IsUserModule(name: string) {
    JsText.Includes(name, "hello") || JsText.StartsWith(name, "examples::")
  }

  function KeepUser(u: CompiledUnit): seq<CompiledUnit> {
    if IsUserModule(u.name) then [u] else []
  }

  /** The units the first loop keeps, in build order. */
  function UserUnits(units: seq<CompiledUnit>): seq<CompiledUnit> {
    Collect(units, KeepUser)
  }

  /** The user units are exactly the units passing the filter. */
  lemma {:induction false} UserUnitsMembers(units: seq<CompiledUnit>)
    ensures forall u :: u in UserUnits(units) <==> u in units && IsUserModule(u.name)
    decreases |units|
  {
    if units != [] {
      var init, last := units[..|units| - 1], units[|units| - 1];
      assert units == init + [last];
      UserUnitsMembers(init);
      CollectSnoc(init, last, KeepUser);
    }
  }

  /** The name a bytecode past the user modules gets. */
  function DefaultName(n: nat): string {
    "Module_" + Show(n)
  }

  /** A default name never passes the user-module filter. */
  lemma DefaultNameNotUser(n: nat)
    ensures !IsUserModule(DefaultName(n))
  {
    var d := DefaultName(n);
    assert forall k :: 0 <= k < |d| ==> d[k] != 'h' by {
      forall k | 0 <= k < |d|
        ensures d[k] != 'h'
      {
        if k >= 7 {
          assert d[k] == Show(n)[k - 7];
        }
      }
    }
    forall i: nat
      ensures !JsText.OccursAt(d, "hello", i)
    {
      if i + 5 <= |d| {
        assert d[i..i + 5][0] == d[i];
      }
    }
    assert |d| >= 10 ==> d[..10][0] == d[0] == 'M';
  }

  lemma DefaultNameInjective(a: nat, b: nat)
    requires DefaultName(a) == DefaultName(b)
    ensures a == b
  {
    assert DefaultName(a)[7..] == Show(a) && DefaultName(b)[7..] == Show(b);
    ShowInjective(a, b);
  }

  function Max(a: nat, b: nat): nat {
    if a < b then b else a
  }

  /**
   * The names and sizes reported after a build: the user units' names and
   * estimated sizes first, then, for each bytecode past them, `Module_<n>`
   * (`n` counting from 1) with size 1024; the lists have equal length.
   */
  ghost predicate NamedAfterBuild(units: seq<CompiledUnit>, bytecodes: seq<string>, names: seq<string>, sizes: seq<nat>) {
    var user := UserUnits(units);
    |names| == |sizes| == Max(|user|, |bytecodes|) &&
    (forall i :: 0 <= i < |user| ==> names[i] == user[i].name && sizes[i] == EstimatedSize(user[i])) &&
    (forall i :: |user| <= i < |names| ==> names[i] == DefaultName(i + 1) && sizes[i] == 1024)
  }

  /** A default name differs from every other reported name. */
  lemma {:induction false} DefaultNamesFresh(units: seq<CompiledUnit>, bytecodes: seq<string>, names: seq<string>, sizes: seq<nat>)
    requires NamedAfterBuild(units, bytecodes, names, sizes)
    ensures forall i, j :: |UserUnits(units)| <= i < |names| && 0 <= j < |names| && i != j ==> names[i] != names[j]
  {
    var user := UserUnits(units);
    UserUnitsMembers(units);
    forall i, j | |user| <= i < |names| && 0 <= j < |names| && i != j
      ensures names[i] != names[j]
    {
      if j < |user| {
        assert user[j] in user;
        DefaultNameNotUser(i + 1);
      } else if names[i] == names[j] {
        DefaultNameInjective(i + 1, j + 1);
      }
    }
  }

  /** The first loop of `compile_move_code`: the names and estimated sizes of the user units, in order. */
  method KeepUserModules(units: seq<CompiledUnit>) returns (names: seq<string>, sizes: seq<nat>)
    ensures var user := UserUnits(units);
      |names| == |user| == |sizes| &&
      forall i :: 0 <= i < |user| ==> names[i] == user[i].name && sizes[i] == EstimatedSize(user[i])
  {
    names, sizes := [], [];
    for k := 0 to |units|
      invariant var user := UserUnits(units[..k]);
        |names| == |user| == |sizes| &&
        forall i :: 0 <= i < |user| ==> names[i] == user[i].name && sizes[i] == EstimatedSize(user[i])
    {
      assert units[..k + 1] == units[..k] + [units[k]];
      CollectSnoc(units[..k], units[k], KeepUser);
      var u := units[k];
      if JsText.Includes(u.name, "hello") || JsText.StartsWith(u.name, "examples::") {
        names := names + [u.name];
        sizes := sizes + [EstimatedSize(u)];
      }
    }
    assert units[..|units|] == units;
  }

  /** The default name for position `n` is none of the names collected so far. */
  lemma DefaultNameAbsent(user: seq<CompiledUnit>, names: seq<string>, userCount: nat, n: nat)
    requires forall u :: u in user ==> IsUserModule(u.name)
    requires userCount <= |user| && userCount <= |names| < n
    requires forall i :: 0 <= i < userCount ==> names[i] == user[i].name
    requires forall i :: userCount <= i < |names| ==> names[i] == DefaultName(i + 1)
    ensures DefaultName(n) !in names
  {
    forall i | 0 <= i < |names|
      ensures names[i] != DefaultName(n)
    {
      if i < userCount {
        assert user[i] in user;
        DefaultNameNotUser(n);
      } else if names[i] == DefaultName(n) {
        DefaultNameInjective(i + 1, n);
      }
    }
  }

  /** The names and sizes so far: the first `userCount` from the user units, the rest defaults for their positions. */
  ghost predicate NamedSoFar(user: seq<CompiledUnit>, userCount: nat, names: seq<string>, sizes: seq<nat>) {
    userCount <= |user| && userCount <= |names| == |sizes| &&
    (forall i :: 0 <= i < userCount ==> names[i] == user[i].name && sizes[i] == EstimatedSize(user[i])) &&
    (forall i :: userCount <= i < |names| ==> names[i] == DefaultName(i + 1) && sizes[i] == 1024)
  }

  /**
   * One turn of the second loop: the bytecode at `idx` takes the name at that
   * position, or a default name that is appended with the size 1024.
   */
  method NameAt(ghost user: seq<CompiledUnit>, userCount: nat, names: seq<string>, sizes: seq<nat>, idx: nat)
    returns (names': seq<string>, sizes': seq<nat>, moduleName: string)
    requires forall u :: u in user ==> IsUserModule(u.name)
    requires NamedSoFar(user, userCount, names, sizes) && |names| == Max(userCount, idx)
    ensures NamedSoFar(user, userCount, names', sizes') && |names'| == Max(userCount, idx + 1)
    ensures names'[..|names|] == names && idx < |names'| && moduleName == names'[idx]
  {
    if idx < |names| {
      names', sizes', moduleName := names, sizes, names[idx];
    } else {
      var defaultName := DefaultName(idx + 1);
      DefaultNameAbsent(user, names, userCount, idx + 1);
      if defaultName !in names {
        names', sizes' := names + [defaultName], sizes + [1024];
      } else {
        names', sizes' := names, sizes;
      }
      moduleName := defaultName;
    }
  }

  /**
   * The two loops of `compile_move_code`: keep the user units, then walk the
   * bytecodes, pairing each with a name and filling the gap with default
   * names. `targets` is the file each bytecode is written to in `bytecode/`.
   */
  method NameModules(units: seq<CompiledUnit>, bytecodes: seq<string>)
    returns (encoded: seq<string>, names: seq<string>, sizes: seq<nat>, targets: seq<string>)
    ensures encoded == bytecodes
    ensures NamedAfterBuild(units, bytecodes, names, sizes)
    ensures |targets| == |bytecodes| && forall i :: 0 <= i < |bytecodes| ==> targets[i] == names[i] + ".mv"
  {
    names, sizes := KeepUserModules(units);
    ghost var user := UserUnits(units);
    UserUnitsMembers(units);
    var userCount := |names|;
    encoded, targets := [], [];
    for idx := 0 to |bytecodes|
      invariant encoded == bytecodes[..idx] && |targets| == idx
      invariant NamedSoFar(user, userCount, names, sizes) && |names| == Max(userCount, idx)
      invariant forall i :: 0 <= i < idx ==> targets[i] == names[i] + ".mv"
    {
      assert bytecodes[..idx + 1] == bytecodes[..idx] + [bytecodes[idx]];
      encoded := encoded + [bytecodes[idx]];
      var moduleName;
      ghost var before := names;
      names, sizes, moduleName := NameAt(user, userCount, names, sizes, idx);
      assert forall i :: 0 <= i < idx ==> names[i] == before[i];
      targets := targets + [moduleName + ".mv"];
    }
    assert bytecodes[..|bytecodes|] == bytecodes;
  }

  // ---------------------------------------------------------------- compile endpoint

  /** What writing the package directory gave: its path, or the error of the step that failed. */
  datatype Written = Written(packagePath: string) | WriteFailed(reason: string)

  /**
   * What `compile_move_code` met: the build's units and bytecodes with the
   * elapsed time, the build's error (its debug text), or an error creating
   * the `bytecode` directory.
   */
  datatype Build = Built(units: seq<CompiledUnit>, bytecodes: seq<string>, elapsedMs: nat) | BuildError(detail: string) | DirectoryError(reason: string)

  /** The reply of a compile that did not get through. */
  function CompileError(message: string): (r: CompileResponse)
    ensures !r.success && r.errorMessage == Some(message) && r.bytecodePath.None?
    ensures r.bytecodeBase64 == [] && r.moduleNames == [] && r.bytecodeSize == [] && r.warnings == [] && r.compileTimeMs == 0
  {
    CompileResponse(false, [], [], [], 0, Some(message), [], None)
  }

  /** The Move.toml text for the request's addresses, as `create_temp_source_file` assembles it. */
  predicate AssembledFor(addresses: Option<string>, content: string) {
    match addresses
    case None => content == BaseManifest + DefaultAddresses
    case Some(text) => content == if RustText.Trim(text) == "" then BaseManifest else BaseManifest + text
  }

  /**
   * `compile_handler`: the file is written under `sources/` as `file_name`,
   * `main.move` when absent, next to the assembled Move.toml; a failed write
   * is an internal error, a failed build an OK reply saying so, and a build
   * that went through reports its bytecodes, names and sizes, no warnings
   * and the package directory.
   */
  method CompileHandler(fileName: Option<string>, addresses: Option<string>, written: Written, build: Build)
    returns (status: Status, sourceFile: string, manifest: string, reply: CompileResponse)
    ensures sourceFile == fileName.GetOr("main.move")
    ensures AssembledFor(addresses, manifest)
    ensures written.WriteFailed? ==> status == InternalServerError && reply == CompileError("创建临时文件失败: " + written.reason)
    ensures written.Written? && build.BuildError? ==> status == Ok && reply == CompileError("编译错误: 编译失败: " + build.detail)
    ensures written.Written? && build.DirectoryError? ==> status == Ok && reply == CompileError("编译错误: " + build.reason)
    ensures written.Written? && build.Built? ==>
      status == Ok && reply.success && reply.errorMessage.None? && reply.warnings == [] &&
      reply.bytecodePath == Some(written.packagePath) && reply.compileTimeMs == build.elapsedMs &&
      reply.bytecodeBase64 == build.bytecodes &&
      NamedAfterBuild(build.units, build.bytecodes, reply.moduleNames, reply.bytecodeSize)
  {
    sourceFile := if fileName.Some? then fileName.value else "main.move";
    manifest := AssembleManifest(addresses);
    if written.WriteFailed? {
      return InternalServerError, sourceFile, manifest, CompileError("创建临时文件失败: " + written.reason);
    }
    match build
    case BuildError(detail) =>
      reply := CompileError("编译错误: " + ("编译失败: " + detail));
      assert "编译错误: " + ("编译失败: " + detail) == "编译错误: 编译失败: " + detail;
      status := Ok;
    case DirectoryError(e) =>
      reply := CompileError("编译错误: " + e);
      status := Ok;
    case Built(units, bytecodes, elapsed) =>
      var encoded, names, sizes, targets := NameModules(units, bytecodes);
      reply := CompileResponse(true, encoded, names, sizes, elapsed, None, [], Some(written.packagePath));
      status := Ok;
  }

  /** The sections of the written Move.toml, whatever the request carried. */
  lemma AssembledHeaders(addresses: Option<string>, content: string)
    requires AssembledFor(addresses, content)
    ensures addresses.None? ==>
      Store.Headers(JsText.Split(content, '\n')) == ["package", "dependencies", "addresses"]
    ensures addresses.Some? && RustText.Trim(addresses.value) == "" ==>
      Store.Headers(JsText.Split(content, '\n')) == ["package", "dependencies"]
    ensures addresses.Some? && RustText.Trim(addresses.value) != "" ==>
      Store.Headers(JsText.Split(content, '\n')) == ["package", "dependencies"] + Store.Headers(JsText.Split(addresses.value, '\n'))
  {
    match addresses
    case None =>
      ManifestHeaders(DefaultAddresses);
      DefaultAddressHeaders();
    case Some(text) =>
      if RustText.Trim(text) == "" {
        ManifestHeaders("");
        BlankHeaders();
        assert BaseManifest + "" == BaseManifest;
      } else {
        ManifestHeaders(text);
      }
  }

  // ---------------------------------------------------------------- command line

  /** What the program does with its arguments. */
  datatype Invocation =
    | ServeHttp
    | UnknownCommand(command: string)
    | CompileSource(path: string, verbose: bool)
    | MissingValue
    | MissingSource

  /** The effect of a run of `compile` options: the source path, the verbose flag and the arguments reported as unknown. */
  datatype Flags = Flags(source: Option<string>, verbose: bool, unknown: seq<string>)

  /** A run of options that parsed, or one that ended in `-s` without a value (with what was reported before). */
  datatype Parsed = Parsed(flags: Flags) | Dangling(reported: seq<string>)

  const NoFlags := Flags(None, false, [])

  /** Later options override earlier ones: a later source replaces, verbose accumulates, unknowns append. */
  function Merge(f: Flags, g: Flags): Flags {
    Flags(if g.source.Some? then g.source else f.source, f.verbose || g.verbose, f.unknown + g.unknown)
  }

  /** Options `f` followed by a run that parsed as `p`. */
  function Then(f: Flags, p: Parsed): Parsed {
    match p
    case Parsed(g) => Parsed(Merge(f, g))
    case Dangling(r) => Dangling(f.unknown + r)
  }

  predicate IsSourceFlag(a: string) {
    a == "-s" || a == "--source"
  }

  predicate IsVerboseFlag(a: string) {
    a == "-v" || a == "--verbose"
  }

  /** The reference reading of the options after `compile`, one option at a time from the front. */
  function Walk(rest: seq<string>): Parsed
    decreases |rest|
  {
    if rest == [] then Parsed(NoFlags)
    else if IsSourceFlag(rest[0]) then
      (if |rest| >= 2 then Then(Flags(Some(rest[1]), false, []), Walk(rest[2..])) else Dangling([]))
    else if IsVerboseFlag(rest[0]) then Then(Flags(None, true, []), Walk(rest[1..]))
    else Then(Flags(None, false, [rest[0]]), Walk(rest[1..]))
  }

  function Interpret(args: seq<string>): Invocation {
    if |args| <= 1 then ServeHttp
    else if args[1] != "compile" then UnknownCommand(args[1])
    else
      match Walk(args[2..])
      case Dangling(_) => MissingValue
      case Parsed(f) => if f.source.Some? then CompileSource(f.source.value, f.verbose) else MissingSource
  }

  /** The arguments reported as unknown before the program goes on or stops. */
  function Reported(args: seq<string>): seq<string> {
    if |args| <= 1 || args[1] != "compile" then []
    else
      match Walk(args[2..])
      case Dangling(r) => r
      case Parsed(f) => f.unknown
  }

  lemma ThenThen(f: Flags, g: Flags, p: Parsed)
    ensures Then(f, Then(g, p)) == Then(Merge(f, g), p)
  {
    match p
    case Parsed(h) =>
      assert (f.unknown + g.unknown) + h.unknown == f.unknown + (g.unknown + h.unknown);
    case Dangling(r) =>
      assert (f.unknown + g.unknown) + r == f.unknown + (g.unknown + r);
  }

  lemma ThenNoFlags(p: Parsed)
    ensures Then(NoFlags, p) == p
  {
    match p
    case Parsed(h) =>
      assert [] + h.unknown == h.unknown;
    case Dangling(r) =>
      assert [] + r == r;
  }

  /** The argument loop of `main`: `-s`/`--source` takes the next argument, `-v`/`--verbose` sets the flag, anything else is reported and skipped. */
  method ParseCommandLine(args: seq<string>) returns (invocation: Invocation, reported: seq<string>)
    ensures invocation == Interpret(args)
    ensures reported == Reported(args)
  {
    if |args| <= 1 {
      return ServeHttp, [];
    }
    if args[1] != "compile" {
      return UnknownCommand(args[1]), [];
    }
    var sourcePath: Option<string> := None;
    var verbose := false;
    reported := [];
    var i := 2;
    ThenNoFlags(Walk(args[2..]));
    while i < |args|
      invariant 2 <= i <= |args|
      invariant Then(Flags(sourcePath, verbose, reported), Walk(args[i..])) == Walk(args[2..])
      decreases |args| - i
    {
      var rest := args[i..];
      assert rest[0] == args[i];
      if args[i] == "-s" || args[i] == "--source" {
        if i + 1 < |args| {
          assert rest[1] == args[i + 1] && rest[2..] == args[i + 2..];
          ThenThen(Flags(sourcePath, verbose, reported), Flags(Some(args[i + 1]), false, []), Walk(args[i + 2..]));
          assert reported + [] == reported;
          sourcePath := Some(args[i + 1]);
          i := i + 2;
        } else {
          assert reported + [] == reported;
          return MissingValue, reported;
        }
      } else if args[i] == "-v" || args[i] == "--verbose" {
        assert rest[1..] == args[i + 1..];
        ThenThen(Flags(sourcePath, verbose, reported), Flags(None, true, []), Walk(args[i + 1..]));
        assert reported + [] == reported;
        verbose := true;
        i := i + 1;
      } else {
        assert rest[1..] == args[i + 1..];
        ThenThen(Flags(sourcePath, verbose, reported), Flags(None, false, [args[i]]), Walk(args[i + 1..]));
        reported := reported + [args[i]];
        i := i + 1;
      }
    }
    assert args[i..] == [];
    assert reported + [] == reported;
    if sourcePath.Some? {
      return CompileSource(sourcePath.value, verbose), reported;
    }
    return MissingSource, reported;
  }

  /** Reading a run of options that parsed, then more, is merging the two readings. */
  lemma {:induction false} WalkAppend(a: seq<string>, b: seq<string>)
    requires Walk(a).Parsed?
    ensures Walk(a + b) == Then(Walk(a).flags, Walk(b))
    decreases |a|
  {
    if a == [] {
      assert a + b == b;
      ThenNoFlags(Walk(b));
    } else {
      var ab := a + b;
      assert ab[0] == a[0];
      if IsSourceFlag(a[0]) {
        assert |a| >= 2;
        assert ab[1] == a[1] && ab[2..] == a[2..] + b;
        WalkAppend(a[2..], b);
        ThenThen(Flags(Some(a[1]), false, []), Walk(a[2..]).flags, Walk(b));
      } else if IsVerboseFlag(a[0]) {
        assert ab[1..] == a[1..] + b;
        WalkAppend(a[1..], b);
        ThenThen(Flags(None, true, []), Walk(a[1..]).flags, Walk(b));
      } else {
        assert ab[1..] == a[1..] + b;
        WalkAppend(a[1..], b);
        ThenThen(Flags(None, false, [a[0]]), Walk(a[1..]).flags, Walk(b));
      }
    }
  }

  /** The last `-s` wins: a source option followed only by options naming no source decides the path. */
  lemma LastSourceWins(a: seq<string>, path: string, b: seq<string>)
    requires Walk(a).Parsed? && Walk(b).Parsed? && Walk(b).flags.source.None?
    ensures Walk(a + ["-s", path] + b).Parsed?
    ensures Walk(a + ["-s", path] + b).flags.source == Some(path)
  {
    var s := ["-s", path] + b;
    assert a + ["-s", path] + b == a + s;
    assert s[2..] == b;
    WalkAppend(a, s);
  }

  /** A source option as the last argument is an error, whatever came before it. */
  lemma SourceNeedsValue(a: seq<string>, flag: string)
    requires Walk(a).Parsed? && IsSourceFlag(flag)
    ensures Walk(a + [flag]).Dangling?
  {
    WalkAppend(a, [flag]);
  }

  /** An argument that is no option is reported and changes nothing else. */
  lemma UnknownSkipped(a: seq<string>, x: string, b: seq<string>)
    requires Walk(a).Parsed? && Walk(b).Parsed? && !IsSourceFlag(x) && !IsVerboseFlag(x)
    ensures Walk(a + [x] + b).Parsed? && Walk(a + b).Parsed?
    ensures var f, g := Walk(a + [x] + b).flags, Walk(a + b).flags;
      f.source == g.source && f.verbose == g.verbose && f.unknown == Walk(a).flags.unknown + [x] + Walk(b).flags.unknown
  {
    var s := [x] + b;
    assert a + [x] + b == a + s;
    assert s[1..] == b;
    WalkAppend(a, s);
    WalkAppend(a, b);
  }
}
