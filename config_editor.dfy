/**
 * The Move.toml editor in the sidebar (components/sidebar/config-editor.tsx):
 * its own copy of the manifest check, which also says why a manifest fails,
 * the save, reset and force-reset buttons, the text area that dispatches
 * every edit, and the debug panel's count of `[package]` lines.
 */
module ConfigEditor {
  import opened Wrappers
  import opened Seqs
  import opened JsText
  import opened PlaygroundStore
  import opened MoveManifest

  /** The message the editor shows for a verdict. */
  function Reason(v: Verdict): Option<string> {
    match v
    case Valid => None
    case Duplicate(s) => Some("重复的节: [" + s + "]")
    case NoPackage => Some("缺少 [package] 节")
  }

  /**
   * The editor's `validateConfig`: the same walk as the store's, reporting the
   * first repeated section or the missing `[package]`.
   */
  method ValidateWithReason(config: string) returns (isValid: bool, error: Option<string>)
    ensures isValid == ValidConfig(config)
    ensures error == Reason(ConfigVerdict(config))
    ensures error.None? <==> isValid
  {
    var lines := Significants(Split(config, '\n'));
    var sections: seq<string> := [];
    for i := 0 to |lines|
      invariant Scan(lines[i..], sections) == Scan(lines, [])
    {
      assert lines[i..][0] == lines[i] && lines[i..][1..] == lines[i + 1..];
      var trimmed := Trim(lines[i]);
      if StartsWith(trimmed, "[") && EndsWith(trimmed, "]") {
        var section := trimmed[1..|trimmed| - 1];
        assert HeaderName(lines[i]) == Some(section);
        if section in sections {
          return false, Some("重复的节: [" + section + "]");
        }
        sections := sections + [section];
      }
    }
    assert lines[|lines|..] == [];
    if "package" !in sections {
      return false, Some("缺少 [package] 节");
    }
    return true, None;
  }

  /** The editor and the store accept the same manifests. */
  method ValidatorsAgree(config: string) returns (same: bool)
    ensures same
  {
    var a := ValidateConfig(config);
    var b, _ := ValidateWithReason(config);
    same := a == b;
  }

  /** A reported duplicate is the first header, in document order, whose name appeared above it. */
  lemma DuplicateIsFirstRepeat(config: string)
    ensures var v, hs := ConfigVerdict(config), Headers(Split(config, '\n'));
      v.Duplicate? ==>
        exists k :: 0 <= k < |hs| && hs[k] == v.section && hs[k] in hs[..k] &&
                    forall j :: 0 <= j < k ==> hs[j] !in hs[..j]
  {
    VerdictMeaning(config);
    var hs := Headers(Split(config, '\n'));
    var k := FirstRepeat(hs, 0);
    if k < |hs| {
      assert hs[k] in hs[..k];
    }
  }

  /** Conversely, the first repeated header is the one reported. */
  lemma FirstRepeatReported(config: string, k: nat)
    requires var hs := Headers(Split(config, '\n'));
      k < |hs| && hs[k] in hs[..k] && forall j :: 0 <= j < k ==> hs[j] !in hs[..j]
    ensures ConfigVerdict(config) == Duplicate(Headers(Split(config, '\n'))[k])
  {
    VerdictMeaning(config);
    FirstRepeatIs(Headers(Split(config, '\n')), 0, k);
  }

  /** What a toast shows. */
  datatype Toast = Toast(title: string, description: Option<string>, destructive: bool)

  /** `saveConfig`: it only reports; the manifest in the store is left alone. */
  method SaveConfig(config: string) returns (t: Toast)
    ensures t.destructive <==> !ValidConfig(config)
    ensures t.destructive ==> t.title == "配置验证失败" && t.description == Reason(ConfigVerdict(config))
    ensures !t.destructive ==> t.title == "Configuration saved" && t.description == Some("Move.toml configuration has been updated.")
  {
    var ok, error := ValidateWithReason(config);
    if !ok {
      return Toast("配置验证失败", error, true);
    }
    return Toast("Configuration saved", Some("Move.toml configuration has been updated."), false);
  }

  // ---------------------------------------------------------------- reset

  /** The text `resetConfig` dispatches. */
  const ResetLines := [Bracketed("package"), "name = \"test\"", "version = \"0.0.1\"", "", Bracketed("addresses"), "test = \"0x2\""]

  /** The reset button puts back the store's default manifest and touches nothing else. */
  lemma ResetRestoresDefault(s: State)
    ensures Reduce(s, SetConfig(Join(ResetLines, '\n'))) == s.(config := DefaultConfig)
  {
    assert ResetLines == DefaultLines;
    SetConfigIs(s, DefaultConfig);
    DefaultConfigValid();
  }

  /** The text `forceReset` dispatches, around its dependency line `dep`. */
  function ForceLinesWith(dep: string): seq<string> {
    [Bracketed("package"), "name = \"move_counter\"", "version = \"0.0.1\"", "", Bracketed("dependencies"), dep, "",
     Bracketed("addresses"), "move_counter = \"0x2\""]
  }

  const ForceLines := ForceLinesWith(SuiDependency)

  const ForceText := Join(ForceLines, '\n')

  lemma ForcePackageLine(dep: string)
    ensures LineHeader(ForceLinesWith(dep)[0]) == ["package"]
  {
    HeaderLine("package");
  }

  lemma ForceDependenciesLine(dep: string)
    ensures LineHeader(ForceLinesWith(dep)[4]) == ["dependencies"]
  {
    HeaderLine("dependencies");
  }

  lemma ForceAddressesLine(dep: string)
    ensures LineHeader(ForceLinesWith(dep)[7]) == ["addresses"]
  {
    HeaderLine("addresses");
  }

  lemma ForcePlainLine(dep: string, i: nat)
    requires i == 1 || i == 2 || i == 3 || i == 6 || i == 8
    ensures LineHeader(ForceLinesWith(dep)[i]) == []
  {
    PlainLine(ForceLinesWith(dep)[i]);
  }

  lemma ForceSplit(dep: string)
    requires '\n' !in dep
    ensures Split(Join(ForceLinesWith(dep), '\n'), '\n') == ForceLinesWith(dep)
  {
    SplitJoin(ForceLinesWith(dep), '\n');
  }

  lemma ThreeOfNine(ls: seq<string>, f: string -> seq<string>, a: string, b: string, c: string)
    requires |ls| == 9 && f(ls[0]) == [a] && f(ls[4]) == [b] && f(ls[7]) == [c]
    requires f(ls[1]) == [] && f(ls[2]) == [] && f(ls[3]) == [] && f(ls[5]) == [] && f(ls[6]) == [] && f(ls[8]) == []
    ensures Collect(ls, f) == [a, b, c]
  {
    var front, back := ls[..6], ls[6..];
    assert ls == front + back;
    CollectAppend(front, back, f);
    CollectSix(front, f);
    CollectThree(back, f);
  }

  lemma ForceHeaders(dep: string)
    requires LineHeader(dep) == []
    ensures Headers(ForceLinesWith(dep)) == ["package", "dependencies", "addresses"]
  {
    ForcePackageLine(dep);
    ForcePlainLine(dep, 1);
    ForcePlainLine(dep, 2);
    ForcePlainLine(dep, 3);
    ForceDependenciesLine(dep);
    ForcePlainLine(dep, 6);
    ForceAddressesLine(dep);
    ForcePlainLine(dep, 8);
    ThreeOfNine(ForceLinesWith(dep), LineHeader, "package", "dependencies", "addresses");
  }

  lemma ForceTextHeaders()
    ensures Headers(Split(ForceText, '\n')) == ["package", "dependencies", "addresses"]
  {
    SuiNoNewline();
    SuiLine();
    ForceSplit(SuiDependency);
    ForceHeaders(SuiDependency);
  }

  /** The force-reset manifest passes the check, so the store keeps it as dispatched. */
  lemma ForceResetStored(s: State)
    ensures ValidConfig(ForceText)
    ensures Reduce(s, SetConfig(ForceText)) == s.(config := ForceText)
  {
    ForceTextHeaders();
    ThreeSectionsValid(ForceText);
    SetConfigIs(s, ForceText);
  }

  /**
   * The text area dispatches `SET_CONFIG` on every change, so an edit that
   * leaves the text invalid (a half-typed header, a deleted `[package]`)
   * replaces the whole manifest with the default one.
   */
  lemma EditOutcome(s: State, text: string)
    ensures ValidConfig(text) ==> Reduce(s, SetConfig(text)) == s.(config := text)
    ensures !ValidConfig(text) ==> Reduce(s, SetConfig(text)) == s.(config := DefaultConfig)
  {
    SetConfigIs(s, text);
  }

  // ---------------------------------------------------------------- the debug panel

  /** A line the debug panel counts: its trimmed text is exactly `[package]`. */
  function PackageMark(line: string): seq<string> {
    if Trim(line) == "[package]" then [line] else []
  }

  /** The panel's `[package] 节出现次数`. */
  function PackageCount(config: string): nat {
    |Collect(Split(config, '\n'), PackageMark)|
  }

  lemma MarkedIsHeader(line: string)
    requires Trim(line) == "[package]"
    ensures LineHeader(line) == ["package"]
  {
    BracketShape("package");
    assert Trim(line) == "[" + "package" + "]";
  }

  lemma {:induction false} MarksBelowHeaders(lines: seq<string>)
    ensures |Collect(lines, PackageMark)| <= multiset(Headers(lines))["package"]
    decreases |lines|
  {
    if lines != [] {
      var init, last := lines[..|lines| - 1], lines[|lines| - 1];
      assert lines == init + [last];
      CollectSnoc(init, last, PackageMark);
      CollectSnoc(init, last, LineHeader);
      MarksBelowHeaders(init);
      if Trim(last) == "[package]" {
        MarkedIsHeader(last);
      }
    }
  }

  lemma {:induction false} NoRepeatsAtMostOnce(hs: seq<string>, x: string)
    requires NoRepeats(hs)
    ensures multiset(hs)[x] <= 1
    decreases |hs|
  {
    if hs != [] {
      var init, last := hs[..|hs| - 1], hs[|hs| - 1];
      assert hs == init + [last];
      assert NoRepeats(init) by {
        forall j | 0 <= j < |init|
          ensures init[j] !in init[..j]
        {
          assert hs[j] == init[j] && hs[..j] == init[..j];
        }
      }
      assert last !in init by {
        assert hs[..|hs| - 1] == init;
      }
      NoRepeatsAtMostOnce(init, x);
    }
  }

  /** When the panel says `是否包含重复节: 是` (more than one `[package]` line), the manifest is invalid. */
  lemma DebugDuplicateInvalid(config: string)
    ensures PackageCount(config) > 1 ==> !ValidConfig(config)
  {
    var hs := Headers(Split(config, '\n'));
    MarksBelowHeaders(Split(config, '\n'));
    ValidMeaning(config);
    if ValidConfig(config) {
      NoRepeatsAtMostOnce(hs, "package");
    }
  }
}
