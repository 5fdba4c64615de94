/**
 * The page's pre-compile check (web/src/App.tsx): its own reader of the normal
 * `[addresses]` table, the module-name scan over the first 10 source lines, the
 * decision between compiling at once and staging a confirmation, and the
 * manifest rewrite the confirmation performs.
 */
module AppGate {
  import opened Wrappers
  import opened JsText
  import opened ModuleHeader
  import opened EditAddresses
  import ConfirmSlot

  // ---------------------------------------------------------------- the normal-table reader

  /** A trimmed line `name = value` with exactly one `=`: both sides trimmed, every `"` removed from the value. */
  function PairOf(t: string): (a: Option<Address>)
    ensures a.Some? ==> '=' in t && '=' !in a.value.name && '=' !in a.value.value && '"' !in a.value.value
  {
    if !Includes(t, "=") then None
    else
      var parts := Split(t, '=');
      if |parts| == 2 then
        IncludesChar(t, '=');
        TrimKeepsOut(parts[0], '=');
        TrimKeepsOut(parts[1], '=');
        var v := Trim(parts[1]);
        RemoveCharsKeepsOut(v, {'"'}, '=');
        Some(Address(Trim(parts[0]), RemoveChars(v, {'"'})))
      else None
  }

  /** `inNormalSection` and the pairs read so far. */
  datatype NormalReader = NormalReader(inNormal: bool, out: seq<Address>)

  /** One turn of the `forEach` callback: an exact `[addresses]` line opens the table, any other `[` line closes it. */
  function NormalStep(r: NormalReader, line: string): NormalReader {
    var t := Trim(line);
    if t == "[addresses]" then NormalReader(true, r.out)
    else if StartsWith(t, "[") then NormalReader(false, r.out)
    else if r.inNormal then
      match PairOf(t)
      case Some(a) => NormalReader(true, r.out + [a])
      case None => r
    else r
  }

  function NormalSteps(r: NormalReader, lines: seq<string>): NormalReader
    decreases |lines|
  {
    if lines == [] then r else NormalSteps(NormalStep(r, lines[0]), lines[1..])
  }

  /** What `parseNormalAddressesFromToml` returns. */
  function NormalSpec(text: string): seq<Address> {
    if text == "" then [] else NormalSteps(NormalReader(false, []), Split(text, '\n')).out
  }

  method ParseNormalAddressesFromToml(text: string) returns (normal: seq<Address>)
    ensures normal == NormalSpec(text)
  {
    normal := [];
    if text == "" {
      return;
    }
    var lines := Split(text, '\n');
    var inNormal := false;
    var i := 0;
    while i < |lines|
      invariant 0 <= i <= |lines|
      invariant NormalSteps(NormalReader(inNormal, normal), lines[i..]) == NormalSteps(NormalReader(false, []), lines)
    {
      assert lines[i..][1..] == lines[i + 1..];
      var t := Trim(lines[i]);
      if t == "[addresses]" {
        inNormal := true;
      } else if StartsWith(t, "[") {
        inNormal := false;
      } else if inNormal {
        var pair := PairOf(t);
        if pair.Some? {
          normal := normal + [pair.value];
        }
      }
      i := i + 1;
    }
    assert lines[i..] == [];
  }

  lemma {:induction false} NormalStepsAppend(r: NormalReader, a: seq<string>, b: seq<string>)
    ensures NormalSteps(r, a + b) == NormalSteps(NormalSteps(r, a), b)
    decreases |a|
  {
    if a == [] {
      assert a + b == b;
    } else {
      assert (a + b)[0] == a[0] && (a + b)[1..] == a[1..] + b;
      NormalStepsAppend(NormalStep(r, a[0]), a[1..], b);
    }
  }

  /** The reader only ever appends. */
  lemma {:induction false} NormalStepsGrow(r: NormalReader, lines: seq<string>)
    ensures |r.out| <= |NormalSteps(r, lines).out| && NormalSteps(r, lines).out[..|r.out|] == r.out
    decreases |lines|
  {
    if lines != [] {
      var next := NormalStep(r, lines[0]);
      assert |r.out| <= |next.out| && next.out[..|r.out|] == r.out;
      NormalStepsGrow(next, lines[1..]);
    }
  }

  /** `[addresses]\n` parsed line by line; `[Addresses]` would not open the table. */
  lemma HeaderStep(r: NormalReader)
    ensures NormalStep(r, "[addresses]") == NormalReader(true, r.out)
  {
    TrimUnpadded("[addresses]");
  }

  /** A line `n = q` is read back as `n` and `q` without its double quotes. */
  lemma PairOfEntry(n: string, q: string)
    requires n != "" && Unpadded(n) && '=' !in n
    requires Unpadded(q) && '=' !in q
    ensures PairOf(n + " = " + q) == Some(Address(n, RemoveChars(q, {'"'})))
  {
    EntryPieces(n, q);
  }

  lemma EntryPieces(n: string, q: string)
    requires n != "" && Unpadded(n) && '=' !in n
    requires Unpadded(q) && '=' !in q
    ensures Includes(n + " = " + q, "=")
    ensures Split(n + " = " + q, '=') == [n + " ", " " + q]
    ensures Trim(n + " ") == n && Trim(" " + q) == q
  {
    EntryEquals(n, q);
    EntrySplit(n, q);
    EntryTrims(n, q);
  }

  lemma EntryEquals(n: string, q: string)
    ensures Includes(n + " = " + q, "=")
  {
    var t := n + " = " + q;
    assert t[|n| + 1] == '=';
    IncludesChar(t, '=');
  }

  lemma EntrySplit(n: string, q: string)
    requires '=' !in n && '=' !in q
    ensures Split(n + " = " + q, '=') == [n + " ", " " + q]
  {
    var left, right := n + " ", " " + q;
    EqualsAround(n, q);
    SplitAtSep(left, '=', right);
    SplitNoSep(right, '=');
  }

  lemma EntryTrims(n: string, q: string)
    requires Unpadded(n) && Unpadded(q)
    ensures Trim(n + " ") == n && Trim(" " + q) == q
  {
    TrimPadded("", n, " ");
    assert "" + n + " " == n + " ";
    TrimPadded(" ", q, "");
    assert " " + q + "" == " " + q;
  }


  lemma EqualsAround(n: string, q: string)
    ensures n + " = " + q == (n + " ") + ['='] + (" " + q)
  {
    var t, u := n + " = " + q, (n + " ") + ['='] + (" " + q);
    assert |t| == |u|;
    forall i | 0 <= i < |t| ensures t[i] == u[i] {
      if i >= |n| + 3 {
        assert t[i] == q[i - |n| - 3] == u[i];
      }
    }
  }

  lemma RemoveQuote(v: string)
    requires '"' !in v
    ensures RemoveChars("\"" + v + "\"", {'"'}) == v
  {
    var cs := {'"'};
    RemoveCharsAppend(['"'] + v, "\"", cs);
    RemoveCharsAppend(['"'], v, cs);
    assert "\"" + v + "\"" == ['"'] + v + "\"";
  }

  /** An identifier has no `=`, quote, line break or white space in it. */
  lemma IdentifierChars(name: string)
    requires IsIdentifier(name)
    ensures '=' !in name && '\n' !in name && '"' !in name && Unpadded(name)
  {
    assert forall i :: 0 <= i < |name| ==> IsWordChar(name[i]);
    SpaceNotWord(name[0]);
    SpaceNotWord(name[|name| - 1]);
  }

  /** The line the confirmation adds for the module `name`. */
  function AutoEntry(name: string): string {
    name + " = \"0x0\""
  }

  /** Inside the open table, the added line contributes its pair. */
  lemma EntryStep(name: string, out: seq<Address>)
    requires IsIdentifier(name)
    ensures NormalStep(NormalReader(true, out), AutoEntry(name)) == NormalReader(true, out + [Address(name, "0x0")])
    ensures '\n' !in AutoEntry(name)
  {
    AutoEntryShape(name);
    IdentifierChars(name);
    PairOfEntry(name, "\"0x0\"");
  }

  lemma AutoEntryShape(name: string)
    requires IsIdentifier(name)
    ensures var t := AutoEntry(name);
            Trim(t) == t && t != "[addresses]" && !StartsWith(t, "[") && '\n' !in t && t == name + " = " + "\"0x0\""
    ensures Unpadded("\"0x0\"") && '=' !in "\"0x0\"" && RemoveChars("\"0x0\"", {'"'}) == "0x0"
  {
    var t := AutoEntry(name);
    IdentifierChars(name);
    assert !IsSpace(t[0]) && t[0] == name[0] && t[|t| - 1] == '"';
    TrimUnpadded(t);
    assert t[0] != '[';
    assert forall i :: 0 <= i < |name| ==> t[i] == name[i];
    RemoveQuote("0x0");
  }

  lemma StepsTwo(r: NormalReader, a: string, b: string)
    ensures NormalSteps(r, [a, b]) == NormalStep(NormalStep(r, a), b)
    ensures NormalSteps(r, [a]) == NormalStep(r, a)
  {
    var r1 := NormalStep(r, a);
    assert [a, b][1..] == [b] && [b][1..] == [] && [a][1..] == [];
    assert NormalSteps(r, [a, b]) == NormalSteps(r1, [b]);
    assert NormalSteps(r1, [b]) == NormalSteps(NormalStep(r1, b), []);
    assert NormalSteps(r, [a]) == NormalSteps(r1, []);
  }

  lemma OpenText(e: string, rest: string)
    ensures "[addresses]\n" + e + "\n" + rest == "[addresses]" + ['\n'] + (e + ['\n'] + rest)
  {
    assert "[addresses]\n" == "[addresses]" + ['\n'];
    assert "\n" == ['\n'];
  }

  lemma NoNewline(name: string)
    requires IsIdentifier(name)
    ensures '\n' !in AutoEntry(name)
  {
    IdentifierChars(name);
    assert '\n' !in " = \"0x0\"";
  }

  /** The first two lines of every rewrite that adds a table. */
  lemma OpeningSplit(name: string, rest: string)
    requires IsIdentifier(name)
    ensures Split("[addresses]\n" + AutoEntry(name) + "\n" + rest, '\n') == ["[addresses]", AutoEntry(name)] + Split(rest, '\n')
  {
    var e := AutoEntry(name);
    NoNewline(name);
    OpenText(e, rest);
    assert '\n' !in "[addresses]";
    SplitAtSep("[addresses]", '\n', e + ['\n'] + rest);
    SplitAtSep(e, '\n', rest);
  }

  /** ... open the table with the pair `(name, "0x0")`. */
  lemma OpeningRead(name: string)
    requires IsIdentifier(name)
    ensures NormalSteps(NormalReader(false, []), ["[addresses]", AutoEntry(name)]) == NormalReader(true, [Address(name, "0x0")])
  {
    StepsTwo(NormalReader(false, []), "[addresses]", AutoEntry(name));
    HeaderStep(NormalReader(false, []));
    EntryStep(name, []);
  }

  // ---------------------------------------------------------------- the decision

  /** `normalAddresses.some(addr => addr.value.trim() === '0x0')`. */
  predicate HasZero(normal: seq<Address>)
    decreases |normal|
  {
    normal != [] && (HasZero(normal[..|normal| - 1]) || Trim(normal[|normal| - 1].value) == "0x0")
  }

  /** The page's module name: the first header, `::` or brace form, among the first 10 lines. */
  function ModuleNameOf(source: string): Option<string> {
    FirstName(Take(Split(source, '\n'), 10), true)
  }

  const EmptyTitle := "地址配置为空"
  const NoZeroTitle := "缺少默认地址"
  const MissingTitle := "地址配置缺失"
  const MissingMessage := "未能检测到模块名称，且地址配置为空。是否打开地址配置界面？"

  function EmptyMessage(name: string): string {
    "检测到模块名称为 \"" + name + "\"，是否添加默认地址配置？\n\n" + AutoEntry(name)
  }

  function NoZeroMessage(name: string): string {
    "当前配置中缺少默认地址。是否为模块 \"" + name + "\" 添加默认地址？\n\n" + AutoEntry(name)
  }

  /** What `checkAddressesAndCompile` does with the manifest `toml`. */
  datatype Decision = CompileNow | AskRewrite(title: string, message: string, name: string) | AskOpenEditor

  function Decide(toml: string, hasZero: bool, moduleName: Option<string>): (d: Decision)
    ensures d.CompileNow? <==> !IsBlank(toml) && (hasZero || moduleName.None?)
    ensures d.AskOpenEditor? <==> IsBlank(toml) && moduleName.None?
    ensures d.AskRewrite? ==> moduleName == Some(d.name) && (IsBlank(toml) || !hasZero)
    ensures d.AskRewrite? ==> d.title == (if IsBlank(toml) then EmptyTitle else NoZeroTitle)
  {
    if IsBlank(toml) || !hasZero then
      if moduleName.Some? then
        var n := moduleName.value;
        if IsBlank(toml) then AskRewrite(EmptyTitle, EmptyMessage(n), n)
        else AskRewrite(NoZeroTitle, NoZeroMessage(n), n)
      else if IsBlank(toml) then AskOpenEditor
      else CompileNow
    else CompileNow
  }

  /** The confirmation's `onConfirm`, kept as data; the compile arguments are captured when it is staged. */
  datatype Action = Idle | RewriteAndCompile(source: string, fileName: string, toml: string) | OpenEditor

  /** What the page does: store the manifest, start a compile, open the address editor. */
  datatype Effect = SetAddresses(toml: string) | Compile(source: string, fileName: string, toml: string) | OpenAddressEditor

  function Perform(a: Action): (effects: seq<Effect>)
    ensures a.Idle? ==> effects == []
    ensures a.RewriteAndCompile? ==> effects == [SetAddresses(a.toml), Compile(a.source, a.fileName, a.toml)]
    ensures a.OpenEditor? ==> effects == [OpenAddressEditor]
  {
    match a
    case Idle => []
    case RewriteAndCompile(s, f, t) => [SetAddresses(t), Compile(s, f, t)]
    case OpenEditor => [OpenAddressEditor]
  }

  /** The new manifest: the entry goes after the first `[addresses]`, or a new table is put in front. */
  function Rewrite(toml: string, name: string): (r: string)
    ensures Includes(toml, "[addresses]") ==>
              var i := IndexOf(toml, "[addresses]").value;
              r == toml[..i] + "[addresses]\n" + AutoEntry(name) + toml[i + 11..]
    ensures !Includes(toml, "[addresses]") && !IsBlank(toml) ==> r == "[addresses]\n" + AutoEntry(name) + "\n\n" + toml
    ensures !Includes(toml, "[addresses]") && IsBlank(toml) ==> r == "[addresses]\n" + AutoEntry(name) + "\n"
  {
    var entry := AutoEntry(name);
    if Includes(toml, "[addresses]") then ReplaceFirst(toml, "[addresses]", "[addresses]\n" + entry)
    else if !IsBlank(toml) then "[addresses]\n" + entry + "\n\n" + toml
    else "[addresses]\n" + entry + "\n"
  }

  /** A blank text holds no `[`, so it never includes `[addresses]`. */
  lemma BlankHasNoHeader(toml: string)
    requires IsBlank(toml)
    ensures !Includes(toml, "[addresses]")
  {
    BlankIffAllSpace(toml);
  }

  /** An empty line changes nothing. */
  lemma EmptyLineStep(r: NormalReader)
    ensures NormalStep(r, "") == r
  {
    TrimUnpadded("");
    assert !Includes("", "=") by {
      IncludesChar("", '=');
    }
  }

  /** For a blank manifest the rewrite yields exactly one normal pair, `(name, "0x0")`. */
  lemma RewriteBlankParses(toml: string, name: string)
    requires IsBlank(toml) && IsIdentifier(name)
    ensures NormalSpec(Rewrite(toml, name)) == [Address(name, "0x0")]
  {
    BlankHasNoHeader(toml);
    var r, e := Rewrite(toml, name), AutoEntry(name);
    assert r == "[addresses]\n" + e + "\n" + "";
    OpeningSplit(name, "");
    var opening := ["[addresses]", e];
    assert Split(r, '\n') == opening + [""];
    var open := NormalReader(true, [Address(name, "0x0")]);
    OpeningRead(name);
    NormalStepsAppend(NormalReader(false, []), opening, [""]);
    StepsTwo(open, "", "");
    EmptyLineStep(open);
    assert NormalSteps(NormalReader(false, []), opening + [""]) == open;
  }

  /** The prepended table, with the blank line before the old text counted as a line of its own. */
  lemma PrependText(e: string, toml: string)
    ensures "[addresses]\n" + e + "\n\n" + toml == "[addresses]\n" + e + "\n" + ("\n" + toml)
  {
    var l, r := "[addresses]\n" + e + "\n\n" + toml, "[addresses]\n" + e + "\n" + ("\n" + toml);
    assert |l| == |r|;
    forall i | 0 <= i < |l|
      ensures l[i] == r[i]
    {
      if i >= 12 + |e| + 1 {
        assert l[i] == ("\n" + toml)[i - 13 - |e|];
      }
    }
  }

  /** The normal pairs of a text with a first line, read from the start. */
  lemma NormalSpecLines(text: string)
    requires text != ""
    ensures NormalSpec(text) == NormalSteps(NormalReader(false, []), Split(text, '\n')).out
  {
  }

  /** Reading the opening table and then anything at all keeps `(name, "0x0")` first. */
  lemma OpeningFirst(name: string, rest: string)
    requires IsIdentifier(name)
    ensures var lines := Split("[addresses]\n" + AutoEntry(name) + "\n" + rest, '\n');
            var out := NormalSteps(NormalReader(false, []), lines).out;
            |out| >= 1 && out[0] == Address(name, "0x0")
  {
    OpeningSplit(name, rest);
    var opening := ["[addresses]", AutoEntry(name)];
    var open := NormalReader(true, [Address(name, "0x0")]);
    OpeningRead(name);
    var tail := Split(rest, '\n');
    NormalStepsAppend(NormalReader(false, []), opening, tail);
    var out := NormalSteps(open, tail).out;
    NormalStepsGrow(open, tail);
    assert out[..1] == [Address(name, "0x0")];
    assert out[0] == out[..1][0];
  }

  /** For a manifest with text but no `[addresses]`, the rewrite's first normal pair is `(name, "0x0")`. */
  lemma RewritePrependParses(toml: string, name: string)
    requires !IsBlank(toml) && !Includes(toml, "[addresses]") && IsIdentifier(name)
    ensures |NormalSpec(Rewrite(toml, name))| >= 1 && NormalSpec(Rewrite(toml, name))[0] == Address(name, "0x0")
  {
    var r, e := Rewrite(toml, name), AutoEntry(name);
    PrependText(e, toml);
    var text := "[addresses]\n" + e + "\n" + ("\n" + toml);
    assert r == text;
    NormalSpecLines(text);
    OpeningFirst(name, "\n" + toml);
  }

  /** The rewritten manifest starts with the table header, so it is not blank. */
  lemma RewriteNotBlank(toml: string, name: string)
    ensures !IsBlank(Rewrite(toml, name))
  {
    var t, e := Rewrite(toml, name), AutoEntry(name);
    if Includes(toml, "[addresses]") {
      var i := IndexOf(toml, "[addresses]").value;
      assert t == toml[..i] + ("[addresses]\n" + e + toml[i + 11..]);
      assert t[i] == '[';
    } else {
      assert t == "[addresses]\n" + (if IsBlank(toml) then e + "\n" else e + "\n\n" + toml);
      assert t[0] == '[';
    }
    BlankIffAllSpace(t);
  }

  /** After the blank-manifest confirmation, the next check compiles at once. */
  lemma RewriteBlankThenCompiles(toml: string, name: string, moduleName: Option<string>)
    requires IsBlank(toml) && IsIdentifier(name)
    ensures var t := Rewrite(toml, name);
            Decide(t, HasZero(NormalSpec(t)), moduleName) == CompileNow
  {
    var t := Rewrite(toml, name);
    RewriteBlankParses(toml, name);
    RewriteNotBlank(toml, name);
    HasZeroOne(name);
    assert HasZero(NormalSpec(t));
  }

  lemma HasZeroOne(name: string)
    ensures HasZero([Address(name, "0x0")])
  {
    var one := [Address(name, "0x0")];
    assert one[..0] == [];
    TrimUnpadded("0x0");
  }

  // ---------------------------------------------------------------- the check

  /** The page's confirmation slot as it starts out. */
  method NewPageSlot() returns (slot: ConfirmSlot.Slot<string, Action>)
    ensures fresh(slot)
    ensures !slot.isOpen && slot.title == "" && slot.message == "" && slot.onConfirm == Idle && slot.variant == None
  {
    slot := new ConfirmSlot.Slot("", Idle);
  }

  /**
   * `checkAddressesAndCompile`: either the compile starts with the manifest as
   * it is, or a warning confirmation is staged and nothing else happens.
   */
  method CheckAddressesAndCompile(slot: ConfirmSlot.Slot<string, Action>, source: string, fileName: string, toml: string)
    returns (effects: seq<Effect>)
    modifies slot
    ensures match Decide(toml, HasZero(NormalSpec(toml)), ModuleNameOf(source))
            case CompileNow =>
              effects == [Compile(source, fileName, toml)] &&
              slot.isOpen == old(slot.isOpen) && slot.title == old(slot.title) && slot.message == old(slot.message) &&
              slot.onConfirm == old(slot.onConfirm) && slot.variant == old(slot.variant)
            case AskRewrite(t, m, n) =>
              effects == [] && slot.isOpen && slot.title == t && slot.message == m &&
              slot.onConfirm == RewriteAndCompile(source, fileName, Rewrite(toml, n)) && slot.variant == Some(ConfirmSlot.Warning)
            case AskOpenEditor =>
              effects == [] && slot.isOpen && slot.title == MissingTitle && slot.message == MissingMessage &&
              slot.onConfirm == OpenEditor && slot.variant == Some(ConfirmSlot.Warning)
  {
    var normal := ParseNormalAddressesFromToml(toml);
    var hasZero := HasZero(normal);
    var moduleName := ScanModuleName(source, 10, true);
    var blank := IsBlank(toml);
    if blank || !hasZero {
      if moduleName.Some? {
        var n := moduleName.value;
        var title, message := NoZeroTitle, NoZeroMessage(n);
        if blank {
          title, message := EmptyTitle, EmptyMessage(n);
        }
        slot.Stage(title, message, RewriteAndCompile(source, fileName, Rewrite(toml, n)), Some(ConfirmSlot.Warning));
        return [];
      } else if blank {
        slot.Stage(MissingTitle, MissingMessage, OpenEditor, Some(ConfirmSlot.Warning));
        return [];
      }
    }
    effects := [Compile(source, fileName, toml)];
  }
}
