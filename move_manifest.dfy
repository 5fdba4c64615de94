/**
 * The Sui framework dependency line that both the editor's force-reset text
 * (components/sidebar/config-editor.tsx) and the server's base manifest
 * (api/src/main.rs) carry, written in pieces so that its characters can be
 * reasoned about one piece at a time.
 */
module MoveManifest {
  import opened JsText
  import opened PlaygroundStore
  import opened Seqs

  const SuiHead := "Sui = { git = \""
  const SuiGit := "https://github.com/" + "MystenLabs/sui.git"
  const SuiMid := "\", subdir = \""
  const SuiSubdir := "crates/sui-framework/" + "packages/sui-framework"
  const SuiRevKey := "\", rev = \""
  const SuiRev := "framework/testnet"
  const SuiTail := "\" }"
  const SuiDependency := SuiHead + SuiGit + SuiMid + SuiSubdir + SuiRevKey + SuiRev + SuiTail

  /** The dependency line opens no section: it starts with `S` and ends with `}`. */
  lemma SuiLine()
    ensures LineHeader(SuiDependency) == []
  {
    var t := SuiDependency;
    var rest := SuiGit + SuiMid + SuiSubdir + SuiRevKey + SuiRev;
    assert t == SuiHead + rest + SuiTail;
    assert t[0] == SuiHead[0] == 'S';
    assert t[|t| - 1] == SuiTail[|SuiTail| - 1] == '}';
    PlainLine(t);
  }

  lemma SuiNoNewline()
    ensures '\n' !in SuiDependency
  {
    SuiKeysOneLine();
    SuiValuesOneLine();
  }

  lemma SuiKeysOneLine()
    ensures '\n' !in SuiHead && '\n' !in SuiMid && '\n' !in SuiRevKey && '\n' !in SuiTail
  {
  }

  lemma SuiValuesOneLine()
    ensures '\n' !in SuiGit && '\n' !in SuiSubdir && '\n' !in SuiRev
  {
    assert '\n' !in "https://github.com/" && '\n' !in "MystenLabs/sui.git";
    assert '\n' !in "crates/sui-framework/" && '\n' !in "packages/sui-framework";
  }

  // ---------------------------------------------------------------- the server's Move.toml

  /** The base manifest's lines before the dependency line. */
  const BaseHead := [Bracketed("package"), "name = \"MoveWebCompile\"", "version = \"0.0.1\"", "edition = \"2024.beta\"", "", Bracketed("dependencies")]

  /** The lines of the base manifest, with the dependency line as a parameter. */
  function BaseLinesWith(dep: string): seq<string> {
    BaseHead + [dep]
  }

  function BaseManifestWith(dep: string): string {
    JsText.Join(BaseLinesWith(dep), '\n') + "\n"
  }

  /** The raw string the manifest starts from: `[package]` and `[dependencies]` with the Sui framework, ending in a newline. */
  const BaseManifest := BaseManifestWith(SuiDependency)

  const DefaultAddressLines := [Bracketed("addresses"), "std = \"0x1\"", "sui = \"0x2\"", "examples = \"0x0\"", "hello_world = \"0x0\""]

  /** The `[addresses]` text used when the request carries none. */
  const DefaultAddresses := JsText.Join(DefaultAddressLines, '\n') + "\n"

  /** The sections the lines of `BaseHead` open, position by position. */
  function BaseCell(i: nat): seq<string> {
    if i == 0 then ["package"] else if i == 5 then ["dependencies"] else []
  }

  lemma BaseLineHeader(i: nat)
    requires i < 6
    ensures LineHeader(BaseHead[i]) == BaseCell(i)
  {
    if i == 0 {
      HeaderLine("package");
    } else if i == 5 {
      HeaderLine("dependencies");
    } else {
      PlainLine(BaseHead[i]);
    }
  }

  lemma BaseCells()
    ensures Spread(BaseCell, 7) == ["package", "dependencies"]
  {
    assert Spread(BaseCell, 1) == ["package"];
    assert Spread(BaseCell, 3) == ["package"];
    assert Spread(BaseCell, 5) == ["package"];
  }

  lemma BaseHeaders(dep: string)
    requires LineHeader(dep) == []
    ensures Headers(BaseLinesWith(dep)) == ["package", "dependencies"]
  {
    var ls := BaseLinesWith(dep);
    forall i | 0 <= i < 7
      ensures LineHeader(ls[i]) == BaseCell(i)
    {
      if i < 6 {
        BaseLineHeader(i);
        assert ls[i] == BaseHead[i];
      }
    }
    CollectBy(ls, LineHeader, BaseCell);
    BaseCells();
  }

  lemma ManifestLines(dep: string, text: string)
    requires '\n' !in dep
    ensures JsText.Split(BaseManifestWith(dep) + text, '\n') == BaseLinesWith(dep) + JsText.Split(text, '\n')
  {
    var ls := BaseLinesWith(dep);
    assert forall i :: 0 <= i < 6 ==> '\n' !in ls[i];
    JsText.SplitJoin(ls, '\n');
    var j := JsText.Join(ls, '\n');
    assert BaseManifestWith(dep) + text == j + ['\n'] + text;
    JsText.SplitConcat(j, '\n', text);
  }

  /** The manifest's sections: `package` and `dependencies`, then those of the appended text. */
  lemma ManifestHeadersWith(dep: string, text: string)
    requires '\n' !in dep && LineHeader(dep) == []
    ensures Headers(JsText.Split(BaseManifestWith(dep) + text, '\n')) ==
      ["package", "dependencies"] + Headers(JsText.Split(text, '\n'))
  {
    ManifestLines(dep, text);
    BaseHeaders(dep);
    CollectAppend(BaseLinesWith(dep), JsText.Split(text, '\n'), LineHeader);
  }

  lemma ManifestHeaders(text: string)
    ensures Headers(JsText.Split(BaseManifest + text, '\n')) ==
      ["package", "dependencies"] + Headers(JsText.Split(text, '\n'))
  {
    SuiLine();
    SuiNoNewline();
    ManifestHeadersWith(SuiDependency, text);
  }

  function AddressCell(i: nat): seq<string> {
    if i == 0 then ["addresses"] else []
  }

  lemma AddressPlainLine(i: nat)
    requires 1 <= i < 5
    ensures LineHeader(DefaultAddressLines[i]) == []
  {
    if i == 1 {
      PlainLine(DefaultAddressLines[1]);
    } else if i == 2 {
      PlainLine(DefaultAddressLines[2]);
    } else if i == 3 {
      PlainLine(DefaultAddressLines[3]);
    } else {
      PlainLine(DefaultAddressLines[4]);
    }
  }

  lemma AddressLineHeader(i: nat)
    requires i < 5
    ensures LineHeader(DefaultAddressLines[i]) == AddressCell(i)
  {
    if i == 0 {
      HeaderLine("addresses");
    } else {
      AddressPlainLine(i);
    }
  }

  lemma AddressLinesOneLine()
    ensures forall i :: 0 <= i < 5 ==> '\n' !in DefaultAddressLines[i]
  {
  }

  lemma AddressCells()
    ensures Spread(AddressCell, 5) == ["addresses"]
  {
    assert Spread(AddressCell, 1) == ["addresses"];
    assert Spread(AddressCell, 3) == ["addresses"];
  }

  /** Newline-free lines joined and ended by a newline split back into the lines and one empty piece. */
  lemma SplitEndedText(ls: seq<string>)
    requires |ls| >= 1 && forall i :: 0 <= i < |ls| ==> '\n' !in ls[i]
    ensures JsText.Split(JsText.Join(ls, '\n') + "\n", '\n') == ls + [""]
  {
    var j := JsText.Join(ls, '\n');
    JsText.SplitJoin(ls, '\n');
    JsText.SplitConcat(j, '\n', "");
    assert j + "\n" == j + ['\n'] + "";
    assert JsText.Split("", '\n') == [""];
  }

  lemma BlankHeaders()
    ensures Headers(JsText.Split("", '\n')) == []
  {
    assert JsText.Split("", '\n') == [""];
    PlainLine("");
    CollectSnoc([], "", LineHeader);
    assert [] + [""] == [""];
  }

  /** A trailing empty line adds no section. */
  lemma HeadersWithBlank(ls: seq<string>, g: nat -> seq<string>)
    requires forall i :: 0 <= i < |ls| ==> LineHeader(ls[i]) == g(i)
    ensures Headers(ls + [""]) == Spread(g, |ls|)
  {
    PlainLine("");
    CollectSnoc(ls, "", LineHeader);
    CollectBy(ls, LineHeader, g);
  }


  lemma DefaultAddressHeaders()
    ensures Headers(JsText.Split(DefaultAddresses, '\n')) == ["addresses"]
  {
    forall i | 0 <= i < 5
      ensures LineHeader(DefaultAddressLines[i]) == AddressCell(i)
    {
      AddressLineHeader(i);
    }
    AddressLinesOneLine();
    SplitEndedText(DefaultAddressLines);
    HeadersWithBlank(DefaultAddressLines, AddressCell);
    AddressCells();
  }
}
