/**
 * The Next.js playground store (lib/providers/playground-provider.tsx): the
 * default files and manifest, the manifest check `validateConfig`, the initial
 * state and the reducer. The reducer substitutes the default manifest for any
 * invalid `SET_CONFIG` payload, so the stored manifest is valid in every
 * reachable state.
 */
module PlaygroundStore {
  import opened Wrappers
  import opened JsText
  import opened Seqs
  import opened PlaygroundTypes

  // ---------------------------------------------------------------- the manifest check

  /** The header line `[name]` that opens the section `name`. */
  function Bracketed(name: string): string {
    "[" + name + "]"
  }

  /** The lines of `defaultConfig`. */
  const DefaultLines := [Bracketed("package"), "name = \"test\"", "version = \"0.0.1\"", "", Bracketed("addresses"), "test = \"0x2\""]

  /** `defaultConfig`, the text `[package]\nname = "test"\nversion = "0.0.1"\n\n[addresses]\ntest = "0x2"`. */
  const DefaultConfig := Join(DefaultLines, '\n')

  /** The lines `validateConfig` looks at: neither blank nor, once trimmed, a `#` comment. */
  predicate Significant(line: string) {
    Trim(line) != "" && !StartsWith(Trim(line), "#")
  }

  function KeepSignificant(line: string): seq<string> {
    if Significant(line) then [line] else []
  }

  /** `lines.filter(...)`, keeping the order. */
  function Significants(lines: seq<string>): seq<string> {
    Collect(lines, KeepSignificant)
  }

  /** A trimmed line `[...]`: it starts with `[` and ends with `]`, so it has at least two characters. */
  predicate IsHeader(t: string) {
    StartsWith(t, "[") && EndsWith(t, "]")
  }

  /** `trimmed.slice(1, -1)`. */
  function SectionOf(t: string): (s: string)
    requires IsHeader(t)
    ensures |s| == |t| - 2 && t == "[" + s + "]"
  {
    assert t[..1][0] == t[0] == '[';
    assert t[|t| - 1..][0] == t[|t| - 1] == ']';
    t[1..|t| - 1]
  }

  /** What the check finds. */
  datatype Verdict = Valid | Duplicate(section: string) | NoPackage

  /** The section a line opens, if its trimmed text is a header. */
  function HeaderName(line: string): (h: Option<string>)
    ensures h.Some? ==> Trim(line) == "[" + h.value + "]"
  {
    var t := Trim(line);
    if IsHeader(t) then Some(SectionOf(t)) else None
  }

  /** The loop over the significant lines, with the sections seen so far. */
  function Scan(lines: seq<string>, sections: seq<string>): Verdict
    decreases |lines|
  {
    if lines == [] then (if "package" in sections then Valid else NoPackage)
    else
      match HeaderName(lines[0])
      case Some(s) => if s in sections then Duplicate(s) else Scan(lines[1..], sections + [s])
      case None => Scan(lines[1..], sections)
  }

  /** The verdict on a whole manifest text. */
  function ConfigVerdict(config: string): Verdict {
    Scan(Significants(Split(config, '\n')), [])
  }

  predicate ValidConfig(config: string) {
    ConfigVerdict(config).Valid?
  }

  /** `validateConfig`: walk the significant lines, give up at the first repeated header, then ask for `package`. */
  method ValidateConfig(config: string) returns (ok: bool)
    ensures ok == ValidConfig(config)
  {
    var lines := Significants(Split(config, '\n'));
    var sections: seq<string> := [];
    for i := 0 to |lines|
      invariant Scan(lines[i..], sections) == Scan(lines, [])
    {
      assert lines[i..][0] == lines[i] && lines[i..][1..] == lines[i + 1..];
      var trimmed := Trim(lines[i]);
      if StartsWith(trimmed, "[") && EndsWith(trimmed, "]") {
        var section := trimmed[1..|trimmed| - 1];
        assert HeaderName(lines[i]) == Some(section);
        if section in sections {
          return false;
        }
        sections := sections + [section];
      }
    }
    assert lines[|lines|..] == [];
    return "package" in sections;
  }

  // ---------------------------------------------------------------- what the check means

  function LineHeader(line: string): seq<string> {
    match HeaderName(line)
    case Some(s) => [s]
    case None => []
  }

  /** The section names of the header lines, in document order. */
  function Headers(lines: seq<string>): seq<string> {
    Collect(lines, LineHeader)
  }

  /** A header line is significant: its trimmed text starts with `[`. */
  lemma HeaderSignificant(line: string)
    ensures LineHeader(line) == Collect(KeepSignificant(line), LineHeader)
  {
    if HeaderName(line).Some? {
      assert Trim(line)[0] == '[';
      assert KeepSignificant(line) == [line];
      CollectCons(line, [], LineHeader);
      assert [line] + [] == [line];
    }
  }

  /** Dropping the insignificant lines loses no header. */
  lemma {:induction false} HeadersOfSignificants(lines: seq<string>)
    ensures Headers(Significants(lines)) == Headers(lines)
    decreases |lines|
  {
    if lines != [] {
      var init, last := lines[..|lines| - 1], lines[|lines| - 1];
      assert lines == init + [last];
      CollectSnoc(init, last, KeepSignificant);
      CollectAppend(Significants(init), KeepSignificant(last), LineHeader);
      CollectSnoc(init, last, LineHeader);
      HeaderSignificant(last);
      HeadersOfSignificants(init);
    }
  }

  /** The index of the first header, from `from` on, whose name already appeared before it; `|hs|` when none. */
  function FirstRepeat(hs: seq<string>, from: nat): (k: nat)
    requires from <= |hs|
    ensures from <= k <= |hs|
    ensures forall j :: from <= j < k ==> hs[j] !in hs[..j]
    ensures k < |hs| ==> hs[k] in hs[..k]
    decreases |hs| - from
  {
    if from == |hs| || hs[from] in hs[..from] then from else FirstRepeat(hs, from + 1)
  }

  lemma {:induction false} FirstRepeatIs(hs: seq<string>, from: nat, k: nat)
    requires from <= k < |hs| && hs[k] in hs[..k]
    requires forall j :: from <= j < k ==> hs[j] !in hs[..j]
    ensures FirstRepeat(hs, from) == k
    decreases k - from
  {
    if from < k {
      FirstRepeatIs(hs, from + 1, k);
    }
  }

  /** The verdict read off the header list: the first repeat, else whether `package` is present. */
  function Judge(hs: seq<string>): Verdict {
    var k := FirstRepeat(hs, 0);
    if k < |hs| then Duplicate(hs[k]) else if "package" in hs then Valid else NoPackage
  }

  ghost predicate NoRepeats(hs: seq<string>) {
    forall j :: 0 <= j < |hs| ==> hs[j] !in hs[..j]
  }

  lemma NoRepeatsSnoc(hs: seq<string>, s: string)
    requires NoRepeats(hs) && s !in hs
    ensures NoRepeats(hs + [s])
  {
    var hs' := hs + [s];
    forall j | 0 <= j < |hs'|
      ensures hs'[j] !in hs'[..j]
    {
      if j < |hs| {
        assert hs'[..j] == hs[..j];
      } else {
        assert hs'[..j] == hs;
      }
    }
  }

  /** A header already seen ends the scan, and it is the first repeat of the whole list. */
  lemma ScanRepeat(lines: seq<string>, seen: seq<string>, s: string)
    requires lines != [] && HeaderName(lines[0]) == Some(s) && s in seen && NoRepeats(seen)
    ensures Scan(lines, seen) == Judge(seen + Headers(lines))
  {
    assert lines == [lines[0]] + lines[1..];
    CollectCons(lines[0], lines[1..], LineHeader);
    var hs := seen + Headers(lines);
    assert hs == (seen + [s]) + Headers(lines[1..]);
    assert hs[|seen|] == s && hs[..|seen|] == seen;
    FirstRepeatIs(hs, 0, |seen|);
  }

  /** A new header moves the scan on with that header added to those seen. */
  lemma ScanNewHeader(lines: seq<string>, seen: seq<string>, s: string)
    requires lines != [] && HeaderName(lines[0]) == Some(s) && s !in seen
    ensures Scan(lines, seen) == Scan(lines[1..], seen + [s])
    ensures seen + Headers(lines) == (seen + [s]) + Headers(lines[1..])
  {
    assert lines == [lines[0]] + lines[1..];
    CollectCons(lines[0], lines[1..], LineHeader);
  }

  /** Any other line moves the scan on and adds no header. */
  lemma ScanPlain(lines: seq<string>, seen: seq<string>)
    requires lines != [] && HeaderName(lines[0]).None?
    ensures Scan(lines, seen) == Scan(lines[1..], seen)
    ensures seen + Headers(lines) == seen + Headers(lines[1..])
  {
    PlainAddsNone(lines);
  }

  lemma PlainAddsNone(lines: seq<string>)
    requires lines != [] && HeaderName(lines[0]).None?
    ensures Headers(lines) == Headers(lines[1..])
  {
    assert lines == [lines[0]] + lines[1..];
    CollectCons(lines[0], lines[1..], LineHeader);
    assert LineHeader(lines[0]) == [];
  }

  lemma {:induction false} ScanJudges(lines: seq<string>, seen: seq<string>)
    requires NoRepeats(seen)
    ensures Scan(lines, seen) == Judge(seen + Headers(lines))
    decreases |lines|
  {
    if lines == [] {
      assert seen + Headers(lines) == seen;
    } else if HeaderName(lines[0]).Some? && HeaderName(lines[0]).value in seen {
      ScanRepeat(lines, seen, HeaderName(lines[0]).value);
    } else if HeaderName(lines[0]).Some? {
      var s := HeaderName(lines[0]).value;
      ScanNewHeader(lines, seen, s);
      NoRepeatsSnoc(seen, s);
      ScanJudges(lines[1..], seen + [s]);
    } else {
      ScanPlain(lines, seen);
      ScanJudges(lines[1..], seen);
    }
  }

  /** `validateConfig`'s verdict in document terms: the first repeated header, else whether `[package]` appears. */
  lemma VerdictMeaning(config: string)
    ensures ConfigVerdict(config) == Judge(Headers(Split(config, '\n')))
  {
    var lines := Split(config, '\n');
    ScanJudges(Significants(lines), []);
    HeadersOfSignificants(lines);
    assert [] + Headers(Significants(lines)) == Headers(lines);
  }

  /** A manifest is valid exactly when no header repeats and `package` is one of them. */
  lemma ValidMeaning(config: string)
    ensures ValidConfig(config) <==> var hs := Headers(Split(config, '\n')); NoRepeats(hs) && "package" in hs
  {
    VerdictMeaning(config);
    var hs := Headers(Split(config, '\n'));
    var k := FirstRepeat(hs, 0);
    if k == |hs| {
      assert NoRepeats(hs);
    } else {
      assert !NoRepeats(hs) by {
        assert hs[k] in hs[..k];
      }
    }
  }

  /** Inserting a blank or `#` line anywhere leaves the verdict as it was. */
  lemma SkipsInsignificant(a: seq<string>, line: string, b: seq<string>)
    requires !Significant(line)
    ensures Scan(Significants(a + [line] + b), []) == Scan(Significants(a + b), [])
  {
    SignificantsSkip(a, line, b);
  }

  lemma SignificantsSkip(a: seq<string>, line: string, b: seq<string>)
    requires !Significant(line)
    ensures Significants(a + [line] + b) == Significants(a + b)
  {
    assert KeepSignificant(line) == [];
    CollectSkip(a, line, b, KeepSignificant);
  }

  // ---------------------------------------------------------------- the default manifest

  lemma SplitDefault()
    ensures Split(DefaultConfig, '\n') == DefaultLines
  {
    SplitJoin(DefaultLines, '\n');
  }

  /** A line whose ends are not white space and which does not start with `[` opens no section. */
  lemma PlainLine(t: string)
    requires t == "" || (!IsSpace(t[0]) && !IsSpace(t[|t| - 1]) && t[0] != '[')
    ensures LineHeader(t) == []
  {
    TrimUnpadded(t);
  }

  lemma BracketShape(s: string)
    ensures var t := "[" + s + "]"; IsHeader(t) && SectionOf(t) == s && t[0] == '[' && t[|t| - 1] == ']'
  {
    var t := "[" + s + "]";
    assert t[..1] == "[" && t[|t| - 1..] == "]";
    assert t[1..|t| - 1] == s;
  }

  lemma BracketTrim(t: string)
    requires |t| >= 2 && t[0] == '[' && t[|t| - 1] == ']'
    ensures Trim(t) == t
  {
    TrimUnpadded(t);
  }

  /** A `[s]` line opens section `s`. */
  lemma HeaderLine(s: string)
    ensures LineHeader("[" + s + "]") == [s]
  {
    var t := "[" + s + "]";
    BracketShape(s);
    BracketTrim(t);
  }

  lemma DefaultLineHeader(i: nat)
    requires i < 6
    ensures LineHeader(DefaultLines[i]) == if i == 0 then ["package"] else if i == 4 then ["addresses"] else []
  {
    if i == 0 {
      HeaderLine("package");
    } else if i == 4 {
      HeaderLine("addresses");
    } else {
      PlainLine(DefaultLines[i]);
    }
  }

  lemma TwoOfSix(ls: seq<string>, f: string -> seq<string>, a: string, b: string)
    requires |ls| == 6 && f(ls[0]) == [a] && f(ls[4]) == [b]
    requires f(ls[1]) == [] && f(ls[2]) == [] && f(ls[3]) == [] && f(ls[5]) == []
    ensures Collect(ls, f) == [a, b]
  {
    CollectSix(ls, f);
  }

  lemma DefaultHeaders()
    ensures Headers(DefaultLines) == ["package", "addresses"]
  {
    DefaultLineHeader(0);
    DefaultLineHeader(1);
    DefaultLineHeader(2);
    DefaultLineHeader(3);
    DefaultLineHeader(4);
    DefaultLineHeader(5);
    TwoOfSix(DefaultLines, LineHeader, "package", "addresses");
  }

  /** A text whose headers are `package` and `addresses` passes the check. */
  lemma TwoSectionsValid(config: string)
    requires Headers(Split(config, '\n')) == ["package", "addresses"]
    ensures ValidConfig(config)
  {
    ValidMeaning(config);
    var hs := Headers(Split(config, '\n'));
    assert hs[..0] == [] && hs[..1] == ["package"];
  }

  /** So does one whose headers are `package`, `dependencies` and `addresses`. */
  lemma ThreeSectionsValid(config: string)
    requires Headers(Split(config, '\n')) == ["package", "dependencies", "addresses"]
    ensures ValidConfig(config)
  {
    ValidMeaning(config);
    var hs := Headers(Split(config, '\n'));
    assert hs[..0] == [] && hs[..1] == ["package"] && hs[..2] == ["package", "dependencies"];
  }

  /** `defaultConfig` passes `validateConfig`. */
  lemma DefaultConfigValid()
    ensures ValidConfig(DefaultConfig)
  {
    SplitDefault();
    DefaultHeaders();
    TwoSectionsValid(DefaultConfig);
  }

  // ---------------------------------------------------------------- the store

  const HelloContent := "module move_counter::hello {\n    use std::string;\n    use sui::object::{Self, UID};\n    use sui::transfer;\n    use sui::tx_context::{Self, TxContext};\n    \n    struct Hello has key, store {\n        id: UID,\n        message: string::String\n    }\n    \n    public entry fun mint(ctx: &mut TxContext) {\n        let hello = Hello {\n            id: object::new(ctx),\n            message: string::utf8(b\"Hello, World!\")\n        };\n        transfer::public_transfer(hello, tx_context::sender(ctx));\n    }\n}"

  /** `defaultHelloFile`; its `new Date()` is the stamp `created`. */
  function HelloFile(created: nat): FileItem {
    FileItem("hello-move-default", "hello.move", HelloContent, Move, "hello.move", created)
  }

  datatype State = State(
    files: seq<FileItem>,
    activeFileId: Option<string>,
    isCompiling: bool,
    compileResult: Option<CompileResponse>,
    isDeploying: bool,
    deployResult: Option<DeployResponse>,
    isTesting: bool,
    testResult: Option<TestResponse>,
    sidebarOpen: bool,
    activeTab: Tab,
    config: string,
    resultPanelExpanded: bool)

  /**
   * The store's actions. `UpdateFile` carries the stamp the reducer's
   * `new Date()` would produce, since the model has no clock.
   */
  datatype Action =
    | SetFiles(files: seq<FileItem>)
    | AddFile(file: FileItem)
    | UpdateFile(id: string, content: string, at: nat)
    | DeleteFile(id: string)
    | SetActiveFile(active: Option<string>)
    | SetCompileLoading(compiling: bool)
    | SetCompileResult(compiled: CompileResponse)
    | SetDeployLoading(deploying: bool)
    | SetDeployResult(deployed: DeployResponse)
    | SetTestLoading(testing: bool)
    | SetTestResult(tested: TestResponse)
    | ToggleSidebar
    | SetActiveTab(tab: Tab)
    | SetConfig(payload: string)
    | ToggleResultPanel

  /** `initialState`: the hello file, active, nothing running, no results, the sidebar open, the default manifest. */
  function InitialState(created: nat): (s: State)
    ensures |s.files| == 1 && s.activeFileId == Some(s.files[0].id) && s.files[0].fileType == Move
    ensures !s.isCompiling && !s.isDeploying && !s.isTesting
    ensures s.compileResult.None? && s.deployResult.None? && s.testResult.None?
    ensures ValidConfig(s.config)
  {
    DefaultConfigValid();
    State([HelloFile(created)], Some("hello-move-default"), false, None, false, None, false, None,
          true, Files, DefaultConfig, false)
  }

  /** The `map` of `UPDATE_FILE`. */
  function UpdateContent(files: seq<FileItem>, id: string, content: string, at: nat): (r: seq<FileItem>)
    ensures |r| == |files|
    ensures forall i :: 0 <= i < |files| ==>
              r[i] == if files[i].id == id then files[i].(content := content, lastModified := at) else files[i]
  {
    seq(|files|, i requires 0 <= i < |files| =>
      if files[i].id == id then files[i].(content := content, lastModified := at) else files[i])
  }

  /** The `filter` of `DELETE_FILE`, keeping the order. */
  function WithoutId(files: seq<FileItem>, id: string): (r: seq<FileItem>)
    ensures forall f :: f in r <==> f in files && f.id != id
    ensures |r| <= |files|
    decreases |files|
  {
    if files == [] then []
    else
      var init, last := files[..|files| - 1], files[|files| - 1];
      assert files == init + [last];
      WithoutId(init, id) + (if last.id != id then [last] else [])
  }

  /** The filter works piecewise: the survivors of `a + b` are those of `a`, then those of `b`, in order. */
  lemma {:induction false} WithoutIdAppend(a: seq<FileItem>, b: seq<FileItem>, id: string)
    ensures WithoutId(a + b, id) == WithoutId(a, id) + WithoutId(b, id)
    decreases |b|
  {
    if b == [] {
      assert a + b == a;
    } else {
      var init, last := b[..|b| - 1], b[|b| - 1];
      assert (a + b)[..|a + b| - 1] == a + init;
      assert (a + b)[|a + b| - 1] == last;
      WithoutIdAppend(a, init, id);
      assert b[..|b| - 1] == init;
    }
  }

  /** Deleting an id no file has leaves the list as it was. */
  lemma {:induction false} WithoutIdAbsent(files: seq<FileItem>, id: string)
    requires forall i :: 0 <= i < |files| ==> files[i].id != id
    ensures WithoutId(files, id) == files
    decreases |files|
  {
    if files != [] {
      var init := files[..|files| - 1];
      WithoutIdAbsent(init, id);
      assert files == init + [files[|files| - 1]];
    }
  }

  /** A single file survives iff its id differs. */
  lemma WithoutIdSingle(f: FileItem, id: string)
    ensures WithoutId([f], id) == if f.id != id then [f] else []
  {
    assert [f][..0] == [];
  }

  /** With distinct ids, deleting the id of file `k` cuts out exactly that file and keeps the rest in order. */
  lemma WithoutIdOne(files: seq<FileItem>, k: nat)
    requires k < |files|
    requires forall i, j :: 0 <= i < j < |files| ==> files[i].id != files[j].id
    ensures WithoutId(files, files[k].id) == files[..k] + files[k + 1..]
  {
    var id := files[k].id;
    var before, after := files[..k], files[k + 1..];
    OthersLackId(files, k, before, after);
    WithoutIdAbsent(before, id);
    WithoutIdAbsent(after, id);
    WithoutIdAround(before, files[k], after);
    Seqs.CutAt(files, k);
  }

  /** Between two lists that keep all their files, a file carrying the deleted id is the one that goes. */
  lemma WithoutIdAround(before: seq<FileItem>, x: FileItem, after: seq<FileItem>)
    requires WithoutId(before, x.id) == before && WithoutId(after, x.id) == after
    ensures WithoutId(before + [x] + after, x.id) == before + after
  {
    var front := before + [x];
    WithoutIdSingle(x, x.id);
    WithoutIdAppend(before, [x], x.id);
    assert WithoutId(front, x.id) == before;
    WithoutIdAppend(front, after, x.id);
  }

  /** With distinct ids, no file before or after `k` carries the id of file `k`. */
  lemma OthersLackId(files: seq<FileItem>, k: nat, before: seq<FileItem>, after: seq<FileItem>)
    requires k < |files| && before == files[..k] && after == files[k + 1..]
    requires forall i, j :: 0 <= i < j < |files| ==> files[i].id != files[j].id
    ensures forall i :: 0 <= i < |before| ==> before[i].id != files[k].id
    ensures forall i :: 0 <= i < |after| ==> after[i].id != files[k].id
  {
    forall i | 0 <= i < |after|
      ensures after[i].id != files[k].id
    {
      assert after[i] == files[k + 1 + i];
    }
  }


  /** What `SET_CONFIG` stores: the payload when it is a valid manifest, the default one otherwise. */
  function StoredConfig(p: string): (c: string)
    ensures ValidConfig(c)
    ensures ValidConfig(p) ==> c == p
    ensures !ValidConfig(p) ==> c == DefaultConfig
  {
    DefaultConfigValid();
    if ValidConfig(p) then p else DefaultConfig
  }

  /** `playgroundReducer`. */
  function Reduce(s: State, a: Action): State {
    match a
    case SetFiles(fs) => s.(files := fs)
    case AddFile(f) => s.(files := s.files + [f])
    case UpdateFile(id, c, at) => s.(files := UpdateContent(s.files, id, c, at))
    case DeleteFile(id) =>
      s.(files := WithoutId(s.files, id), activeFileId := if s.activeFileId == Some(id) then None else s.activeFileId)
    case SetActiveFile(id) => s.(activeFileId := id)
    case SetCompileLoading(b) => s.(isCompiling := b)
    case SetCompileResult(r) => s.(compileResult := Some(r), isCompiling := false)
    case SetDeployLoading(b) => s.(isDeploying := b)
    case SetDeployResult(r) => s.(deployResult := Some(r), isDeploying := false)
    case SetTestLoading(b) => s.(isTesting := b)
    case SetTestResult(r) => s.(testResult := Some(r), isTesting := false)
    case ToggleSidebar => s.(sidebarOpen := !s.sidebarOpen)
    case SetActiveTab(t) => s.(activeTab := t)
    case SetConfig(p) => s.(config := StoredConfig(p))
    case ToggleResultPanel => s.(resultPanelExpanded := !s.resultPanelExpanded)
  }

  /** `SET_CONFIG` changes the manifest alone, to what `StoredConfig` picks. */
  lemma SetConfigIs(s: State, p: string)
    ensures Reduce(s, SetConfig(p)) == s.(config := StoredConfig(p))
  {
  }

  /** The provider's mount effect: an invalid manifest is replaced by the default one. */
  function MountCheck(s: State): (r: State)
    ensures ValidConfig(r.config)
    ensures ValidConfig(s.config) ==> r == s
    ensures !ValidConfig(s.config) ==> r == s.(config := DefaultConfig)
  {
    DefaultConfigValid();
    SetConfigIs(s, DefaultConfig);
    if !ValidConfig(s.config) then Reduce(s, SetConfig(DefaultConfig)) else s
  }

  /** At mount the store holds its initial state, whose manifest already passes, so the effect dispatches nothing. */
  lemma MountIdle(created: nat)
    ensures MountCheck(InitialState(created)) == InitialState(created)
  {
  }

  /** A run of dispatches. */
  function Run(s: State, actions: seq<Action>): State
    decreases |actions|
  {
    if actions == [] then s else Run(Reduce(s, actions[0]), actions[1..])
  }

  /** No action makes a valid manifest invalid. */
  lemma ReduceKeepsValid(s: State, a: Action)
    requires ValidConfig(s.config)
    ensures ValidConfig(Reduce(s, a).config)
  {
    ConfigOnlyBySetConfig(s, a);
  }

  /** Only `SET_CONFIG` touches the manifest, and it stores what `StoredConfig` keeps. */
  lemma ConfigOnlyBySetConfig(s: State, a: Action)
    ensures Reduce(s, a).config == if a.SetConfig? then StoredConfig(a.payload) else s.config
  {
  }

  /** The stored manifest is valid in every state the store can reach. */
  lemma {:induction false} RunKeepsValid(s: State, actions: seq<Action>)
    requires ValidConfig(s.config)
    ensures ValidConfig(Run(s, actions).config)
    decreases |actions|
  {
    if actions != [] {
      ReduceKeepsValid(s, actions[0]);
      RunKeepsValid(Reduce(s, actions[0]), actions[1..]);
    }
  }

  lemma ReachableValid(created: nat, actions: seq<Action>)
    ensures ValidConfig(Run(InitialState(created), actions).config)
  {
    RunKeepsValid(InitialState(created), actions);
  }

  /** Each action changes only its own fields. */
  lemma ReduceFrame(s: State, a: Action)
    ensures var r := Reduce(s, a);
      (r.files != s.files ==> a.SetFiles? || a.AddFile? || a.UpdateFile? || a.DeleteFile?) &&
      (r.activeFileId != s.activeFileId ==> a.SetActiveFile? || a.DeleteFile?) &&
      (r.isCompiling != s.isCompiling ==> a.SetCompileLoading? || a.SetCompileResult?) &&
      (r.compileResult != s.compileResult ==> a.SetCompileResult?) &&
      (r.isDeploying != s.isDeploying ==> a.SetDeployLoading? || a.SetDeployResult?) &&
      (r.deployResult != s.deployResult ==> a.SetDeployResult?) &&
      (r.isTesting != s.isTesting ==> a.SetTestLoading? || a.SetTestResult?) &&
      (r.testResult != s.testResult ==> a.SetTestResult?) &&
      (r.sidebarOpen != s.sidebarOpen ==> a.ToggleSidebar?) &&
      (r.activeTab != s.activeTab ==> a.SetActiveTab?) &&
      (r.config != s.config ==> a.SetConfig?) &&
      (r.resultPanelExpanded != s.resultPanelExpanded ==> a.ToggleResultPanel?)
  {
    match a
    case SetFiles(_) =>
    case AddFile(_) =>
    case UpdateFile(_, _, _) =>
    case DeleteFile(_) =>
    case SetActiveFile(_) =>
    case SetCompileLoading(_) =>
    case SetCompileResult(_) =>
    case SetDeployLoading(_) =>
    case SetDeployResult(_) =>
    case SetTestLoading(_) =>
    case SetTestResult(_) =>
    case ToggleSidebar =>
    case SetActiveTab(_) =>
    case SetConfig(_) =>
    case ToggleResultPanel =>
  }

  /** A result landing stores the payload and ends the matching operation. */
  lemma ResultLands(s: State, a: Action)
    ensures a.SetCompileResult? ==> Reduce(s, a).compileResult == Some(a.compiled) && !Reduce(s, a).isCompiling
    ensures a.SetDeployResult? ==> Reduce(s, a).deployResult == Some(a.deployed) && !Reduce(s, a).isDeploying
    ensures a.SetTestResult? ==> Reduce(s, a).testResult == Some(a.tested) && !Reduce(s, a).isTesting
  {
  }

  /** The two toggles undo themselves and flip their flag. */
  lemma TogglesInvolutive(s: State)
    ensures Reduce(Reduce(s, ToggleSidebar), ToggleSidebar) == s
    ensures Reduce(Reduce(s, ToggleResultPanel), ToggleResultPanel) == s
    ensures Reduce(s, ToggleSidebar).sidebarOpen != s.sidebarOpen
    ensures Reduce(s, ToggleResultPanel).resultPanelExpanded != s.resultPanelExpanded
  {
  }

  /** `DELETE_FILE`: exactly the files with another id stay, and the active id is cleared iff it was the deleted one. */
  lemma DeleteFileEffect(s: State, id: string)
    ensures var r := Reduce(s, DeleteFile(id));
      (forall f :: f in r.files <==> f in s.files && f.id != id) &&
      (r.activeFileId.None? <==> s.activeFileId.None? || s.activeFileId == Some(id)) &&
      (r.activeFileId.Some? ==> r.activeFileId == s.activeFileId)
  {
  }

  /** `UPDATE_FILE`: files with that id get the new content and stamp; every other file is as it was. */
  lemma UpdateFileEffect(s: State, id: string, c: string, at: nat)
    ensures var r := Reduce(s, UpdateFile(id, c, at));
      |r.files| == |s.files| &&
      forall i :: 0 <= i < |s.files| ==>
        (s.files[i].id == id ==> r.files[i].content == c && r.files[i].lastModified == at &&
                                 r.files[i].(content := s.files[i].content, lastModified := s.files[i].lastModified) == s.files[i]) &&
        (s.files[i].id != id ==> r.files[i] == s.files[i])
  {
  }
}
