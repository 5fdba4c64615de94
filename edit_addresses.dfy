/**
 * The address editor of the web front end (web/src/components/EditAddressesModal.tsx):
 * the line parser and the canonical formatter of the `[addresses]` /
 * `[dev-addresses]` text, the intended-name status, the value-reuse conflict
 * check, the save decision and the list edits of the two address tables.
 */
module EditAddresses {
  import opened Wrappers
  import opened Seqs
  import opened JsText
  import opened ModuleHeader

  /** A name/value pair as the parser reads it from the manifest text. */
  datatype Address = Address(name: string, value: string)

  /** A row of one of the two tables; `id` stands for the generated id string. */
  datatype Entry = Entry(id: nat, name: string, value: string)

  /** `currentSection`: `null`, `'normal'` or `'dev'`. */
  datatype Section = Outside | Normal | Dev

  datatype Parsed = Parsed(normal: seq<Address>, dev: seq<Address>)

  // ---------------------------------------------------------------- name extraction

  /** The intended address name: the first header among the first 20 lines. */
  function IntendedNameOf(source: string): Option<string> {
    FirstName(Take(Split(source, '\n'), 20), false)
  }

  method ExtractIntendedAddressName(source: string) returns (name: Option<string>)
    ensures name == IntendedNameOf(source)
    ensures name.Some? ==> IsIdentifier(name.value)
  {
    name := ScanModuleName(source, 20, false);
  }

  /** Whatever follows the 20th line has no say in the extracted name. */
  lemma IntendedNameSeesPrefix(source: string, more: string)
    requires |Split(source, '\n')| >= 20
    ensures IntendedNameOf(source + "\n" + more) == IntendedNameOf(source)
  {
    SplitConcat(source, '\n', more);
    var whole := Split(source, '\n') + Split(more, '\n');
    assert whole[..20] == Split(source, '\n')[..20];
  }

  // ---------------------------------------------------------------- parsing

  predicate IsQuote(c: char) {
    c == '"' || c == '\''
  }

  /** What one trimmed, non-header line contributes, if it is `name = value` with exactly one `=`. */
  function LineEntry(t: string): (a: Option<Address>)
    ensures a.Some? ==> '=' in t && !StartsWith(t, "#")
    ensures a.Some? ==> Unpadded(a.value.name) && '=' !in a.value.name
    ensures a.Some? ==> '=' !in a.value.value && forall i :: 0 <= i < |a.value.value| ==> !IsQuote(a.value.value[i])
  {
    if StartsWith(t, "#") || !Includes(t, "=") then None
    else
      var parts := Split(t, '=');
      if |parts| == 2 then
        IncludesChar(t, '=');
        TrimKeepsOut(parts[0], '=');
        TrimKeepsOut(parts[1], '=');
        var v := Trim(parts[1]);
        var value := RemoveChars(v, {'"', '\''});
        RemoveCharsKeepsOut(v, {'"', '\''}, '=');
        Some(Address(Trim(parts[0]), value))
      else None
  }

  /** No address read by `LineEntry` carries `=` or a quote, and names come trimmed. */
  predicate CleanAddress(a: Address) {
    Unpadded(a.name) && '=' !in a.name && '=' !in a.value && forall i :: 0 <= i < |a.value| ==> !IsQuote(a.value[i])
  }

  predicate CleanParsed(p: Parsed) {
    (forall i :: 0 <= i < |p.normal| ==> CleanAddress(p.normal[i])) &&
    (forall i :: 0 <= i < |p.dev| ==> CleanAddress(p.dev[i]))
  }

  /** Files a pair under the current section; outside both sections it is dropped. */
  function Put(p: Parsed, sec: Section, a: Address): Parsed {
    match sec
    case Outside => p
    case Normal => Parsed(p.normal + [a], p.dev)
    case Dev => Parsed(p.normal, p.dev + [a])
  }

  /** The parser's state between two lines: the current section and what was read so far. */
  datatype Reader = Reader(section: Section, out: Parsed)

  const Start := Reader(Outside, Parsed([], []))

  /** One turn of the `forEach` callback: headers switch sections, other lines may add a pair. */
  function ReadLine(r: Reader, line: string): Reader {
    var t := Trim(line);
    var lower := ToLower(t);
    if lower == "[addresses]" then Reader(Normal, r.out)
    else if lower == "[dev-addresses]" then Reader(Dev, r.out)
    else
      match LineEntry(t)
      case None => r
      case Some(a) => Reader(r.section, Put(r.out, r.section, a))
  }

  function ReadLines(r: Reader, lines: seq<string>): Reader
    decreases |lines|
  {
    if lines == [] then r else ReadLines(ReadLine(r, lines[0]), lines[1..])
  }

  /** What `parseAddressesToml` returns for `text`: nothing for "", else the lines read from the start. */
  function ParseSpec(text: string): Parsed {
    if text == "" then Parsed([], []) else ReadLines(Start, Split(text, '\n')).out
  }

  method ParseAddressesToml(text: string) returns (normal: seq<Address>, dev: seq<Address>)
    ensures Parsed(normal, dev) == ParseSpec(text)
  {
    normal, dev := [], [];
    if text == "" {
      return;
    }
    var lines := Split(text, '\n');
    var section := Outside;
    var i := 0;
    while i < |lines|
      invariant 0 <= i <= |lines|
      invariant ReadLines(Reader(section, Parsed(normal, dev)), lines[i..]) == ReadLines(Start, lines)
    {
      assert lines[i..][1..] == lines[i + 1..];
      var t := Trim(lines[i]);
      var lower := ToLower(t);
      if lower == "[addresses]" {
        section := Normal;
      } else if lower == "[dev-addresses]" {
        section := Dev;
      } else {
        var entry := LineEntry(t);
        if entry.Some? {
          if section == Normal {
            normal := normal + [entry.value];
          } else if section == Dev {
            dev := dev + [entry.value];
          }
        }
      }
      i := i + 1;
    }
    assert lines[i..] == [];
  }

  lemma PutClean(p: Parsed, sec: Section, a: Address)
    requires CleanParsed(p) && CleanAddress(a)
    ensures CleanParsed(Put(p, sec, a))
  {
  }

  lemma ReadLineClean(r: Reader, line: string)
    requires CleanParsed(r.out)
    ensures CleanParsed(ReadLine(r, line).out)
  {
    var t := Trim(line);
    var lower := ToLower(t);
    if lower != "[addresses]" && lower != "[dev-addresses]" {
      var e := LineEntry(t);
      if e.Some? {
        assert CleanAddress(e.value);
        PutClean(r.out, r.section, e.value);
        assert ReadLine(r, line) == Reader(r.section, Put(r.out, r.section, e.value));
      } else {
        assert ReadLine(r, line) == r;
      }
    } else {
      assert ReadLine(r, line).out == r.out;
    }
  }

  /** Reading more lines never spoils what was read: every pair is clean. */
  lemma {:induction false} ReadLinesClean(r: Reader, lines: seq<string>)
    requires CleanParsed(r.out)
    ensures CleanParsed(ReadLines(r, lines).out)
    decreases |lines|
  {
    if lines != [] {
      ReadLineClean(r, lines[0]);
      ReadLinesClean(ReadLine(r, lines[0]), lines[1..]);
    }
  }

  /** Every parsed pair has a trimmed name and a value without `=` and without quotes. */
  lemma ParseClean(text: string)
    ensures CleanParsed(ParseSpec(text))
  {
    if text != "" {
      ReadLinesClean(Start, Split(text, '\n'));
    }
  }

  /** Reading is a left fold: the lines can be read in two goes. */
  lemma {:induction false} ReadLinesAppend(r: Reader, xs: seq<string>, ys: seq<string>)
    ensures ReadLines(r, xs + ys) == ReadLines(ReadLines(r, xs), ys)
    decreases |xs|
  {
    if xs != [] {
      assert (xs + ys)[1..] == xs[1..] + ys;
      ReadLinesAppend(ReadLine(r, xs[0]), xs[1..], ys);
    } else {
      assert xs + ys == ys;
    }
  }

  predicate IsHeader(line: string) {
    var lower := ToLower(Trim(line));
    lower == "[addresses]" || lower == "[dev-addresses]"
  }

  /** Lines before the first section header contribute nothing. */
  lemma {:induction false} ReadOutside(p: Parsed, lines: seq<string>)
    requires forall i :: 0 <= i < |lines| ==> !IsHeader(lines[i])
    ensures ReadLines(Reader(Outside, p), lines) == Reader(Outside, p)
    decreases |lines|
  {
    if lines != [] {
      assert ReadLine(Reader(Outside, p), lines[0]) == Reader(Outside, p);
      ReadOutside(p, lines[1..]);
    }
  }

  // ---------------------------------------------------------------- formatting

  /** Rows whose trimmed name and trimmed value are both non-empty; only these are written out. */
  predicate Kept(e: Entry) {
    !IsBlank(e.name) && !IsBlank(e.value)
  }

  /** `es.some(...)` with the `Kept` test. */
  predicate HasKept(es: seq<Entry>)
    decreases |es|
  {
    es != [] && (HasKept(es[..|es| - 1]) || Kept(es[|es| - 1]))
  }

  /** `name = "value"`, both trimmed. */
  function EntryLine(e: Entry): string {
    Trim(e.name) + " = \"" + Trim(e.value) + "\""
  }

  /** The lines the kept rows contribute, in order. */
  function KeptLines(es: seq<Entry>): (lines: seq<string>)
    ensures HasKept(es) <==> lines != []
    decreases |es|
  {
    if es == [] then []
    else
      var last := es[|es| - 1];
      KeptLines(es[..|es| - 1]) + (if Kept(last) then [EntryLine(last)] else [])
  }

  /** The text one table's loop appends: each kept row's line and a newline. */
  function Block(es: seq<Entry>): string
    decreases |es|
  {
    if es == [] then ""
    else
      var last := es[|es| - 1];
      Block(es[..|es| - 1]) + (if Kept(last) then EntryLine(last) + "\n" else "")
  }

  /** The accumulator `toml` before the final `trim`. */
  function Body(normal: seq<Entry>, dev: seq<Entry>): string {
    (if HasKept(normal) then "[addresses]\n" + Block(normal) + (if HasKept(dev) then "\n" else "") else "") +
    (if HasKept(dev) then "[dev-addresses]\n" + Block(dev) else "")
  }

  /** What `formatAddressesToToml` returns. */
  function FormatSpec(normal: seq<Entry>, dev: seq<Entry>): string {
    Trim(Body(normal, dev))
  }

  /** One table's `forEach`: appends the line of each kept row, with its newline. */
  method AppendRows(toml: string, es: seq<Entry>) returns (r: string)
    ensures r == toml + Block(es)
  {
    r := toml;
    var i := 0;
    while i < |es|
      invariant 0 <= i <= |es|
      invariant r == toml + Block(es[..i])
    {
      assert es[..i + 1][..i] == es[..i];
      if Kept(es[i]) {
        var line := EntryLine(es[i]) + "\n";
        ConcatAssoc(toml, Block(es[..i]), line);
        r := r + line;
      }
      i := i + 1;
    }
    assert es[..i] == es;
  }

  method FormatAddressesToToml(normal: seq<Entry>, dev: seq<Entry>) returns (toml: string)
    ensures toml == FormatSpec(normal, dev)
  {
    toml := "";
    var hasNormal := HasKept(normal);
    var hasDev := HasKept(dev);
    if hasNormal {
      toml := AppendRows("[addresses]\n", normal);
      if hasDev {
        toml := toml + "\n";
      }
    }
    var head := toml;
    if hasDev {
      toml := AppendRows(toml + "[dev-addresses]\n", dev);
      ConcatAssoc(head, "[dev-addresses]\n", Block(dev));
    } else {
      assert toml == head + "";
    }
    toml := Trim(toml);
  }

  // ---------------------------------------------------------------- the round trip

  /** Names and values that pass through the text unchanged: no `=`, no line break, no quote in the value, no comment mark. */
  predicate Clean(e: Entry) {
    '=' !in e.name && '\n' !in e.name && !StartsWith(Trim(e.name), "#") &&
    '=' !in e.value && '\n' !in e.value && '"' !in e.value && '\'' !in e.value
  }

  predicate AllClean(es: seq<Entry>) {
    forall i :: 0 <= i < |es| ==> Clean(es[i])
  }

  lemma AllCleanSplit(es: seq<Entry>)
    requires es != [] && AllClean(es)
    ensures AllClean(es[..|es| - 1]) && Clean(es[|es| - 1])
  {
    var init := es[..|es| - 1];
    forall i | 0 <= i < |init| ensures Clean(init[i]) {
      assert init[i] == es[i];
    }
  }

  /** The pair a kept row is written as: its trimmed name and value. */
  function Pair(e: Entry): Address {
    Address(Trim(e.name), Trim(e.value))
  }

  function KeptPairs(es: seq<Entry>): (pairs: seq<Address>)
    ensures |pairs| == |KeptLines(es)|
    decreases |es|
  {
    if es == [] then []
    else
      var last := es[|es| - 1];
      KeptPairs(es[..|es| - 1]) + (if Kept(last) then [Pair(last)] else [])
  }

  lemma EntryLineSplit(n: string, v: string)
    requires '=' !in n && '=' !in v
    ensures Split(n + " = \"" + v + "\"", '=') == [n + " ", " \"" + v + "\""]
  {
    var right := " \"" + v + "\"";
    assert n + " = \"" + v + "\"" == (n + " ") + ['='] + right;
    SplitAtSep(n + " ", '=', right);
    SplitNoSep(right, '=');
  }

  lemma RemoveQuotesAround(v: string)
    requires '"' !in v && '\'' !in v
    ensures RemoveChars("\"" + v + "\"", {'"', '\''}) == v
  {
    var cs := {'"', '\''};
    RemoveCharsAppend(['"'] + v, "\"", cs);
    RemoveCharsAppend(['"'], v, cs);
    assert "\"" + v + "\"" == ['"'] + v + "\"";
  }

  /** `LineEntry` on a line that is no comment and splits at its one `=` into `left` and `right`. */
  lemma LineEntryParts(t: string, left: string, right: string)
    requires !StartsWith(t, "#") && Includes(t, "=") && Split(t, '=') == [left, right]
    ensures LineEntry(t) == Some(Address(Trim(left), RemoveChars(Trim(right), {'"', '\''})))
  {
  }

  /** The formatted line starts as its name does and holds an `=`. */
  lemma EntryLineShape(n: string, v: string)
    requires n != "" && !StartsWith(n, "#")
    ensures var t := n + " = \"" + v + "\""; !StartsWith(t, "#") && Includes(t, "=")
  {
    var t := n + " = \"" + v + "\"";
    assert t[..1] == n[..1];
    assert t[|n| + 1] == '=';
    IncludesChar(t, '=');
  }

  /** Both sides of the formatted line trim to the name and the quoted value. */
  lemma EntryLineTrims(n: string, v: string)
    requires Unpadded(n) && v != "" && Unpadded(v)
    ensures Trim(n + " ") == n && Trim(" \"" + v + "\"") == "\"" + v + "\""
  {
    TrimPadded("", n, " ");
    assert "" + n + " " == n + " ";
    var q := "\"" + v + "\"";
    TrimPadded(" ", q, "");
    assert " " + q + "" == " \"" + v + "\"";
  }

  /** The parser reads a formatted line back as the pair it was written from. */
  lemma LineEntryOf(n: string, v: string)
    requires n != "" && Unpadded(n) && '=' !in n && !StartsWith(n, "#")
    requires v != "" && Unpadded(v) && '=' !in v && '"' !in v && '\'' !in v
    ensures LineEntry(n + " = \"" + v + "\"") == Some(Address(n, v))
  {
    EntryLineShape(n, v);
    EntryLineSplit(n, v);
    LineEntryParts(n + " = \"" + v + "\"", n + " ", " \"" + v + "\"");
    EntryLineTrims(n, v);
    RemoveQuotesAround(v);
  }


  /** A line holding `=` is never taken for a section header. */
  lemma EqualsLineNotHeader(t: string, k: nat)
    requires k < |t| && t[k] == '='
    ensures ToLower(t) != "[addresses]" && ToLower(t) != "[dev-addresses]"
  {
    assert ToLower(t)[k] == '=';
    assert '=' !in "[addresses]" && '=' !in "[dev-addresses]";
  }

  lemma ReadEntryLine(e: Entry, sec: Section, p: Parsed)
    requires Kept(e) && Clean(e)
    ensures ReadLine(Reader(sec, p), EntryLine(e)) == Reader(sec, Put(p, sec, Pair(e)))
  {
    var n, v := Trim(e.name), Trim(e.value);
    assert n != "" && v != "";
    var t := EntryLine(e);
    assert t == n + " = \"" + v + "\"";
    TrimKeepsOut(e.name, '=');
    TrimKeepsOut(e.value, '=');
    TrimKeepsOut(e.value, '"');
    TrimKeepsOut(e.value, '\'');
    assert t[0] == n[0] && t[|t| - 1] == '"';
    TrimUnpadded(t);
    EqualsLineNotHeader(t, |n| + 1);
    LineEntryOf(n, v);
  }

  /** Appends the pairs to the given section. */
  function PutAll(p: Parsed, sec: Section, pairs: seq<Address>): Parsed {
    match sec
    case Outside => p
    case Normal => Parsed(p.normal + pairs, p.dev)
    case Dev => Parsed(p.normal, p.dev + pairs)
  }

  lemma KeptAppend(init: seq<Entry>, last: Entry)
    ensures KeptLines(init + [last]) == KeptLines(init) + (if Kept(last) then [EntryLine(last)] else [])
    ensures KeptPairs(init + [last]) == KeptPairs(init) + (if Kept(last) then [Pair(last)] else [])
  {
    var es := init + [last];
    assert es[..|es| - 1] == init && es[|es| - 1] == last;
  }

  lemma PutAfterAll(p: Parsed, sec: Section, pairs: seq<Address>, a: Address)
    requires sec != Outside
    ensures Put(PutAll(p, sec, pairs), sec, a) == PutAll(p, sec, pairs + [a])
  {
    ConcatAssoc(p.normal, pairs, [a]);
    ConcatAssoc(p.dev, pairs, [a]);
  }

  lemma ReadKeptStep(init: seq<Entry>, last: Entry, sec: Section, p: Parsed)
    requires sec != Outside && Clean(last)
    requires ReadLines(Reader(sec, p), KeptLines(init)) == Reader(sec, PutAll(p, sec, KeptPairs(init)))
    ensures ReadLines(Reader(sec, p), KeptLines(init + [last])) == Reader(sec, PutAll(p, sec, KeptPairs(init + [last])))
  {
    KeptAppend(init, last);
    var piece := if Kept(last) then [EntryLine(last)] else [];
    ReadLinesAppend(Reader(sec, p), KeptLines(init), piece);
    var mid := PutAll(p, sec, KeptPairs(init));
    if Kept(last) {
      ReadEntryLine(last, sec, mid);
      assert piece[1..] == [];
      PutAfterAll(p, sec, KeptPairs(init), Pair(last));
    } else {
      assert KeptPairs(init) + [] == KeptPairs(init);
    }
  }

  /** Inside a section, the formatted lines of clean rows read back as their pairs. */
  lemma {:induction false} ReadKept(es: seq<Entry>, sec: Section, p: Parsed)
    requires sec != Outside && AllClean(es)
    ensures ReadLines(Reader(sec, p), KeptLines(es)) == Reader(sec, PutAll(p, sec, KeptPairs(es)))
    decreases |es|
  {
    if es == [] {
      assert PutAll(p, sec, []) == p;
    } else {
      var init, last := es[..|es| - 1], es[|es| - 1];
      assert init + [last] == es;
      AllCleanSplit(es);
      ReadKept(init, sec, p);
      ReadKeptStep(init, last, sec, p);
    }
  }

  /** Lines each followed by a newline: what the formatter's `+=` steps build. */
  function Terminated(lines: seq<string>): string
    decreases |lines|
  {
    if lines == [] then "" else lines[0] + "\n" + Terminated(lines[1..])
  }

  lemma {:induction false} TerminatedAppend(xs: seq<string>, ys: seq<string>)
    ensures Terminated(xs + ys) == Terminated(xs) + Terminated(ys)
    decreases |xs|
  {
    if xs == [] {
      assert xs + ys == ys;
    } else {
      assert (xs + ys)[1..] == xs[1..] + ys;
      TerminatedAppend(xs[1..], ys);
      ConcatAssoc(xs[0] + "\n", Terminated(xs[1..]), Terminated(ys));
    }
  }

  lemma {:induction false} TerminatedJoin(lines: seq<string>)
    requires |lines| >= 1
    ensures Terminated(lines) == Join(lines, '\n') + "\n"
    decreases |lines|
  {
    if |lines| > 1 {
      TerminatedJoin(lines[1..]);
      ConcatAssoc(lines[0] + "\n", Join(lines[1..], '\n'), "\n");
    } else {
      assert lines[1..] == [];
    }
  }

  lemma {:induction false} BlockLines(es: seq<Entry>)
    ensures Block(es) == Terminated(KeptLines(es))
    decreases |es|
  {
    if es != [] {
      var init, last := es[..|es| - 1], es[|es| - 1];
      BlockLines(init);
      var piece := if Kept(last) then [EntryLine(last)] else [];
      TerminatedAppend(KeptLines(init), piece);
      if Kept(last) {
        assert piece[1..] == [];
        assert Terminated(piece) == EntryLine(last) + "\n" + "";
      }
    }
  }

  predicate EndsWithQuote(line: string) {
    line != "" && line[|line| - 1] == '"'
  }

  lemma EntryLineForm(e: Entry)
    ensures EndsWithQuote(EntryLine(e))
    ensures Clean(e) ==> '\n' !in EntryLine(e)
  {
    if Clean(e) {
      TrimKeepsOut(e.name, '\n');
      TrimKeepsOut(e.value, '\n');
    }
  }

  lemma {:induction false} KeptLinesQuoted(es: seq<Entry>)
    ensures forall i :: 0 <= i < |KeptLines(es)| ==> EndsWithQuote(KeptLines(es)[i])
    decreases |es|
  {
    if es != [] {
      var init, last := es[..|es| - 1], es[|es| - 1];
      KeptLinesQuoted(init);
      EntryLineForm(last);
      assert init + [last] == es;
      KeptAppend(init, last);
      var xs, ys := KeptLines(init), if Kept(last) then [EntryLine(last)] else [];
      forall i | 0 <= i < |xs + ys| ensures EndsWithQuote((xs + ys)[i]) {
        if i < |xs| {
          assert (xs + ys)[i] == xs[i];
        } else {
          assert (xs + ys)[i] == ys[i - |xs|];
        }
      }
    }
  }

  lemma {:induction false} KeptLinesUnbroken(es: seq<Entry>)
    requires AllClean(es)
    ensures forall i :: 0 <= i < |KeptLines(es)| ==> '\n' !in KeptLines(es)[i]
    decreases |es|
  {
    if es != [] {
      var init, last := es[..|es| - 1], es[|es| - 1];
      AllCleanSplit(es);
      KeptLinesUnbroken(init);
      EntryLineForm(last);
      assert init + [last] == es;
      KeptAppend(init, last);
      var xs, ys := KeptLines(init), if Kept(last) then [EntryLine(last)] else [];
      forall i | 0 <= i < |xs + ys| ensures '\n' !in (xs + ys)[i] {
        if i < |xs| {
          assert (xs + ys)[i] == xs[i];
        } else {
          assert (xs + ys)[i] == ys[i - |xs|];
        }
      }
    }
  }

  /** The lines of the formatted text, before they are joined. */
  function TextLines(normal: seq<Entry>, dev: seq<Entry>): seq<string> {
    (if HasKept(normal) then ["[addresses]"] + KeptLines(normal) + (if HasKept(dev) then [""] else []) else []) +
    (if HasKept(dev) then ["[dev-addresses]"] + KeptLines(dev) else [])
  }

  lemma TerminatedCons(line: string, rest: seq<string>)
    ensures Terminated([line] + rest) == line + "\n" + Terminated(rest)
  {
    assert ([line] + rest)[1..] == rest;
  }

  /** One section as the formatter writes it: its header line, then its rows. */
  lemma SectionLines(header: string, es: seq<Entry>)
    ensures header + "\n" + Block(es) == Terminated([header] + KeptLines(es))
  {
    BlockLines(es);
    TerminatedCons(header, KeptLines(es));
  }

  lemma HeaderLines()
    ensures "[addresses]\n" == "[addresses]" + "\n"
    ensures "[dev-addresses]\n" == "[dev-addresses]" + "\n"
  {
  }

  lemma BodyLinesBoth(normal: seq<Entry>, dev: seq<Entry>)
    requires HasKept(normal) && HasKept(dev)
    ensures Body(normal, dev) == Terminated(TextLines(normal, dev))
  {
    var top := ["[addresses]"] + KeptLines(normal);
    var bottom := ["[dev-addresses]"] + KeptLines(dev);
    var bn, bd := Block(normal), Block(dev);
    assert Body(normal, dev) == "[addresses]\n" + bn + "\n" + ("[dev-addresses]\n" + bd);
    assert TextLines(normal, dev) == (top + [""]) + bottom;
    TerminatedAppend(top + [""], bottom);
    TerminatedAppend(top, [""]);
    var blank := Terminated([""]);
    TerminatedCons("", []);
    assert blank == "\n";
    var x, y := Terminated(top), Terminated(bottom);
    SectionLines("[addresses]", normal);
    SectionLines("[dev-addresses]", dev);
    HeaderLines();
    assert x == "[addresses]\n" + bn;
    assert y == "[dev-addresses]\n" + bd;
    assert Terminated(TextLines(normal, dev)) == (x + blank) + y;
  }

  lemma BodyLinesNormal(normal: seq<Entry>, dev: seq<Entry>)
    requires HasKept(normal) && !HasKept(dev)
    ensures Body(normal, dev) == Terminated(TextLines(normal, dev))
  {
    var bn := Block(normal);
    assert Body(normal, dev) == "[addresses]\n" + bn + "";
    var top := ["[addresses]"] + KeptLines(normal);
    assert TextLines(normal, dev) == top + [] + [];
    assert top + [] + [] == top;
    SectionLines("[addresses]", normal);
    HeaderLines();
    assert "[addresses]\n" + bn + "" == "[addresses]" + "\n" + bn;
  }

  lemma BodyLinesDev(normal: seq<Entry>, dev: seq<Entry>)
    requires !HasKept(normal) && HasKept(dev)
    ensures Body(normal, dev) == Terminated(TextLines(normal, dev))
  {
    var bd := Block(dev);
    assert Body(normal, dev) == "" + ("[dev-addresses]\n" + bd);
    var bottom := ["[dev-addresses]"] + KeptLines(dev);
    assert TextLines(normal, dev) == [] + bottom;
    assert [] + bottom == bottom;
    SectionLines("[dev-addresses]", dev);
    HeaderLines();
    assert "" + ("[dev-addresses]\n" + bd) == "[dev-addresses]" + "\n" + bd;
  }

  lemma BodyIsLines(normal: seq<Entry>, dev: seq<Entry>)
    ensures Body(normal, dev) == Terminated(TextLines(normal, dev))
  {
    if HasKept(normal) && HasKept(dev) {
      BodyLinesBoth(normal, dev);
    } else if HasKept(normal) {
      BodyLinesNormal(normal, dev);
    } else if HasKept(dev) {
      BodyLinesDev(normal, dev);
    } else {
      assert TextLines(normal, dev) == [];
    }
  }

  /** The text lines start with a section header and end with a row that ends in a quote. */
  lemma TextLinesEnds(normal: seq<Entry>, dev: seq<Entry>)
    requires HasKept(normal) || HasKept(dev)
    ensures var lines := TextLines(normal, dev);
            |lines| >= 1 && lines[0] != "" && lines[0][0] == '[' && EndsWithQuote(lines[|lines| - 1])
  {
    var lines := TextLines(normal, dev);
    var kn, kd := KeptLines(normal), KeptLines(dev);
    KeptLinesQuoted(normal);
    KeptLinesQuoted(dev);
    if HasKept(dev) {
      var bottom := ["[dev-addresses]"] + kd;
      var top := if HasKept(normal) then ["[addresses]"] + kn + [""] else [];
      assert lines == top + bottom;
      assert lines[|lines| - 1] == kd[|kd| - 1];
    } else {
      assert lines == ["[addresses]"] + kn + [] + [];
      assert lines[|lines| - 1] == kn[|kn| - 1];
    }
  }

  lemma TrimNewline(j: string)
    requires Unpadded(j)
    ensures Trim(j + "\n") == j
  {
    TrimPadded("", j, "\n");
    assert "" + j + "\n" == j + "\n";
  }

  lemma BracketedUnpadded(lines: seq<string>)
    requires |lines| >= 1 && lines[0] != "" && lines[0][0] == '[' && EndsWithQuote(lines[|lines| - 1])
    ensures Unpadded(Join(lines, '\n'))
  {
    JoinFirst(lines, '\n');
    JoinLast(lines, '\n');
  }

  /** When anything is kept, the formatted text is the text lines joined by newlines. */
  lemma FormatLines(normal: seq<Entry>, dev: seq<Entry>)
    requires HasKept(normal) || HasKept(dev)
    ensures FormatSpec(normal, dev) == Join(TextLines(normal, dev), '\n')
  {
    var lines := TextLines(normal, dev);
    BodyIsLines(normal, dev);
    TerminatedJoin(lines);
    TextLinesEnds(normal, dev);
    BracketedUnpadded(lines);
    TrimNewline(Join(lines, '\n'));
  }

  /** With nothing kept the formatted text is empty. */
  lemma FormatNothing(normal: seq<Entry>, dev: seq<Entry>)
    requires !HasKept(normal) && !HasKept(dev)
    ensures FormatSpec(normal, dev) == ""
  {
    assert Body(normal, dev) == "";
  }

  lemma ReadOne(r: Reader, line: string)
    ensures ReadLines(r, [line]) == ReadLine(r, line)
  {
    assert [line][1..] == [];
  }

  /** The two header lines and the blank separator, as the parser reads them. */
  lemma ReadAddressesHeader(r: Reader)
    ensures ReadLines(r, ["[addresses]"]) == Reader(Normal, r.out)
  {
    ReadOne(r, "[addresses]");
    TrimUnpadded("[addresses]");
    LowerWithoutCapitals("[addresses]");
  }

  lemma ReadDevHeader(r: Reader)
    ensures ReadLines(r, ["[dev-addresses]"]) == Reader(Dev, r.out)
  {
    ReadOne(r, "[dev-addresses]");
    TrimUnpadded("[dev-addresses]");
    LowerWithoutCapitals("[dev-addresses]");
  }

  lemma ReadBlank(r: Reader)
    ensures ReadLines(r, [""]) == r
  {
    ReadOne(r, "");
    TrimUnpadded("");
    IncludesChar("", '=');
  }

  lemma ReadSection(r: Reader, header: string, sec: Section, es: seq<Entry>)
    requires AllClean(es)
    requires (header == "[addresses]" && sec == Normal) || (header == "[dev-addresses]" && sec == Dev)
    ensures ReadLines(r, [header] + KeptLines(es)) == Reader(sec, PutAll(r.out, sec, KeptPairs(es)))
  {
    ReadLinesAppend(r, [header], KeptLines(es));
    if sec == Normal {
      ReadAddressesHeader(r);
    } else {
      ReadDevHeader(r);
    }
    ReadKept(es, sec, r.out);
  }

  lemma ReadBoth(normal: seq<Entry>, dev: seq<Entry>)
    requires HasKept(normal) && HasKept(dev) && AllClean(normal) && AllClean(dev)
    ensures ReadLines(Start, TextLines(normal, dev)).out == Parsed(KeptPairs(normal), KeptPairs(dev))
  {
    var top := ["[addresses]"] + KeptLines(normal) + [""];
    var bottom := ["[dev-addresses]"] + KeptLines(dev);
    TextBoth(normal, dev);
    ReadLinesAppend(Start, top, bottom);
    var r := ReadTop(normal);
    ReadDevAfter(r, dev);
  }

  /** With rows in both tables the text is the normal section, a blank line and the dev section. */
  lemma TextBoth(normal: seq<Entry>, dev: seq<Entry>)
    requires HasKept(normal) && HasKept(dev)
    ensures TextLines(normal, dev) == (["[addresses]"] + KeptLines(normal) + [""]) + (["[dev-addresses]"] + KeptLines(dev))
  {
  }

  /** The normal section and the blank line after it leave the reader in it, holding its pairs. */
  lemma ReadTop(normal: seq<Entry>) returns (r: Reader)
    requires AllClean(normal)
    ensures r == ReadLines(Start, ["[addresses]"] + KeptLines(normal) + [""])
    ensures r == Reader(Normal, Parsed(KeptPairs(normal), []))
  {
    var top := ["[addresses]"] + KeptLines(normal);
    ReadLinesAppend(Start, top, [""]);
    ReadSection(Start, "[addresses]", Normal, normal);
    r := ReadLines(Start, top);
    ReadBlank(r);
    assert [] + KeptPairs(normal) == KeptPairs(normal);
  }

  /** The dev section read after no dev pair yet leaves exactly its pairs in the dev table. */
  lemma ReadDevAfter(r: Reader, dev: seq<Entry>)
    requires AllClean(dev) && r.out.dev == []
    ensures ReadLines(r, ["[dev-addresses]"] + KeptLines(dev)) == Reader(Dev, Parsed(r.out.normal, KeptPairs(dev)))
  {
    ReadSection(r, "[dev-addresses]", Dev, dev);
    assert [] + KeptPairs(dev) == KeptPairs(dev);
  }

  lemma ReadNormalOnly(normal: seq<Entry>, dev: seq<Entry>)
    requires HasKept(normal) && !HasKept(dev) && AllClean(normal)
    ensures ReadLines(Start, TextLines(normal, dev)).out == Parsed(KeptPairs(normal), KeptPairs(dev))
  {
    var top := ["[addresses]"] + KeptLines(normal);
    assert TextLines(normal, dev) == top + [] + [];
    assert top + [] + [] == top;
    ReadSection(Start, "[addresses]", Normal, normal);
    assert [] + KeptPairs(normal) == KeptPairs(normal);
    assert KeptLines(dev) == [];
  }

  lemma ReadDevOnly(normal: seq<Entry>, dev: seq<Entry>)
    requires !HasKept(normal) && HasKept(dev) && AllClean(dev)
    ensures ReadLines(Start, TextLines(normal, dev)).out == Parsed(KeptPairs(normal), KeptPairs(dev))
  {
    var bottom := ["[dev-addresses]"] + KeptLines(dev);
    assert TextLines(normal, dev) == [] + bottom;
    assert [] + bottom == bottom;
    ReadSection(Start, "[dev-addresses]", Dev, dev);
    assert [] + KeptPairs(dev) == KeptPairs(dev);
    assert KeptLines(normal) == [];
  }

  predicate Unbroken(lines: seq<string>) {
    forall i :: 0 <= i < |lines| ==> '\n' !in lines[i]
  }

  lemma UnbrokenAppend(xs: seq<string>, ys: seq<string>)
    requires Unbroken(xs) && Unbroken(ys)
    ensures Unbroken(xs + ys)
  {
    forall i | 0 <= i < |xs + ys| ensures '\n' !in (xs + ys)[i] {
      if i < |xs| {
        assert (xs + ys)[i] == xs[i];
      } else {
        assert (xs + ys)[i] == ys[i - |xs|];
      }
    }
  }

  lemma TextLinesUnbroken(normal: seq<Entry>, dev: seq<Entry>)
    requires AllClean(normal) && AllClean(dev)
    ensures Unbroken(TextLines(normal, dev))
  {
    KeptLinesUnbroken(normal);
    KeptLinesUnbroken(dev);
    var kn, kd := KeptLines(normal), KeptLines(dev);
    assert Unbroken(["[addresses]"]) && Unbroken(["[dev-addresses]"]) && Unbroken([""]) && Unbroken([]);
    UnbrokenAppend(["[addresses]"], kn);
    UnbrokenAppend(["[addresses]"] + kn, [""]);
    UnbrokenAppend(["[addresses]"] + kn, []);
    UnbrokenAppend(["[dev-addresses]"], kd);
    var sep: seq<string> := if HasKept(dev) then [""] else [];
    var top := if HasKept(normal) then ["[addresses]"] + kn + sep else [];
    var bottom := if HasKept(dev) then ["[dev-addresses]"] + kd else [];
    UnbrokenAppend(top, bottom);
    assert TextLines(normal, dev) == top + bottom;
  }

  /**
   * Formatting and then parsing gives back the trimmed name/value pairs of the
   * kept rows, in order and each in its own section.
   */
  lemma RoundTrip(normal: seq<Entry>, dev: seq<Entry>)
    requires AllClean(normal) && AllClean(dev)
    ensures ParseSpec(FormatSpec(normal, dev)) == Parsed(KeptPairs(normal), KeptPairs(dev))
  {
    if !HasKept(normal) && !HasKept(dev) {
      FormatNothing(normal, dev);
      assert KeptLines(normal) == [] && KeptLines(dev) == [];
    } else {
      var lines := TextLines(normal, dev);
      FormatLines(normal, dev);
      TextLinesUnbroken(normal, dev);
      SplitJoin(lines, '\n');
      TextLinesEnds(normal, dev);
      JoinFirst(lines, '\n');
      if HasKept(normal) && HasKept(dev) {
        ReadBoth(normal, dev);
      } else if HasKept(normal) {
        ReadNormalOnly(normal, dev);
      } else {
        ReadDevOnly(normal, dev);
      }
    }
  }

  // ---------------------------------------------------------------- the intended-name status

  /** The banner's `type`. */
  datatype Severity = Info | Warning | Error

  /** The banner for the intended name `name`. */
  datatype Status = Missing(name: string) | WrongValue(name: string, value: string) | Correct(name: string) {
    function Severity(): Severity {
      match this
      case Missing(_) => Warning
      case WrongValue(_, _) => Error
      case Correct(_) => Info
    }
  }

  /** The test of `find` at line 140: the row's name is exactly `name`. */
  function NamedBy(name: string): Entry -> bool {
    (e: Entry) => e.name == name
  }

  /** `es.find(addr => addr.name === name)`. */
  function Find(es: seq<Entry>, name: string): Option<Entry> {
    var k := FirstIndex(es, NamedBy(name), 0);
    if k < |es| then Some(es[k]) else None
  }

  /** `value.toLowerCase() === '0x0'`. */
  predicate IsZero(value: string) {
    ToLower(value) == "0x0"
  }

  /** The banner for a non-empty intended name: looked up among the normal rows only. */
  function Classify(name: string, normal: seq<Entry>): (st: Status)
    ensures st.name == name
    ensures st.Missing? <==> forall i :: 0 <= i < |normal| ==> normal[i].name != name
  {
    match Find(normal, name)
    case None => Missing(name)
    case Some(e) => if !IsZero(e.value) then WrongValue(name, e.value) else Correct(name)
  }

  /** The first row with that name decides: `info` if its value is `0x0` in any case, otherwise `error`. */
  lemma ClassifyFirst(name: string, normal: seq<Entry>, k: nat)
    requires k < |normal| && normal[k].name == name
    requires forall j :: 0 <= j < k ==> normal[j].name != name
    ensures Classify(name, normal) == if IsZero(normal[k].value) then Correct(name) else WrongValue(name, normal[k].value)
  {
    FirstIndexIs(normal, NamedBy(name), 0, k);
  }

  /** The status effect: nothing while closed or without an intended name. */
  function AddressStatus(isOpen: bool, intended: Option<string>, normal: seq<Entry>): (st: Option<Status>)
    ensures st.None? <==> !isOpen || intended.None? || intended.value == ""
    ensures st.Some? ==> st.value.name == intended.value
  {
    if !isOpen || intended.None? || intended.value == "" then None else Some(Classify(intended.value, normal))
  }

  // ---------------------------------------------------------------- value-reuse conflicts

  /** A problem reported before saving. */
  datatype Issue =
    | NameMissing(name: string)
    | NameWrongValue(name: string, value: string)
    | SharedValue(value: string, names: seq<string>)

  /** The grouping key: the trimmed, lower-cased value. */
  function Key(e: Entry): string {
    ToLower(Trim(e.value))
  }

  /** What the grouping loop takes from a kept row: its key and its trimmed name. */
  datatype Row = Row(key: string, name: string)

  /** What one table row contributes to the grouping: nothing when it is not kept. */
  function RowOf(e: Entry): seq<Row> {
    if Kept(e) then [Row(Key(e), Trim(e.name))] else []
  }

  /** The kept rows of `es`, in order, as the grouping loop sees them. */
  function Rows(es: seq<Entry>): seq<Row> {
    Collect(es, RowOf)
  }

  /** The distinct keys of `rows`, in the order the map first sees them. */
  function Keys(rows: seq<Row>): seq<string>
    decreases |rows|
  {
    if rows == [] then []
    else
      var init, last := rows[..|rows| - 1], rows[|rows| - 1];
      Keys(init) + (if last.key !in Keys(init) then [last.key] else [])
  }

  /** The names of the rows whose key is `v`, in order. */
  function NamesFor(rows: seq<Row>, v: string): seq<string>
    decreases |rows|
  {
    if rows == [] then []
    else
      var init, last := rows[..|rows| - 1], rows[|rows| - 1];
      NamesFor(init, v) + (if last.key == v then [last.name] else [])
  }

  /** The messages for the keys in `keys` that two or more rows share, in key order. */
  function ConflictsFrom(keys: seq<string>, rows: seq<Row>): (cs: seq<Issue>)
    ensures forall i :: 0 <= i < |cs| ==> cs[i].SharedValue? && cs[i].value in keys && cs[i].names == NamesFor(rows, cs[i].value)
    ensures forall i :: 0 <= i < |cs| ==> |cs[i].names| > 1
    decreases |keys|
  {
    if keys == [] then []
    else
      var k := keys[|keys| - 1];
      ConflictsFrom(keys[..|keys| - 1], rows) + (if |NamesFor(rows, k)| > 1 then [SharedValue(k, NamesFor(rows, k))] else [])
  }

  /** What `checkGeneralAddressConflicts` returns: normal rows first, then dev rows. */
  function ConflictsSpec(normal: seq<Entry>, dev: seq<Entry>): seq<Issue> {
    var rows := Rows(normal + dev);
    ConflictsFrom(Keys(rows), rows)
  }

  lemma GroupStep(rows: seq<Row>, r: Row)
    ensures Keys(rows + [r]) == Keys(rows) + (if r.key !in Keys(rows) then [r.key] else [])
    ensures forall v :: NamesFor(rows + [r], v) == NamesFor(rows, v) + (if r.key == v then [r.name] else [])
  {
    var all := rows + [r];
    assert all[..|all| - 1] == rows && all[|all| - 1] == r;
  }

  /** A value that is not among the keys has no names. */
  lemma {:induction false} NamesForAbsent(rows: seq<Row>, v: string)
    requires v !in Keys(rows)
    ensures NamesFor(rows, v) == []
    decreases |rows|
  {
    if rows != [] {
      var init := rows[..|rows| - 1];
      assert Keys(init) <= Keys(rows);
      NamesForAbsent(init, v);
    }
  }

  /** `keys` and `groups` are what the grouping loop holds after `rows`. */
  ghost predicate Grouped(rows: seq<Row>, keys: seq<string>, groups: map<string, seq<string>>) {
    keys == Keys(rows) &&
    (forall v :: v in groups <==> v in keys) &&
    (forall v :: v in groups ==> groups[v] == NamesFor(rows, v))
  }

  /** One kept row through the grouping loop keeps `Grouped`. */
  lemma GroupedStep(rows: seq<Row>, r: Row, keys: seq<string>, groups: map<string, seq<string>>,
                    keys': seq<string>, groups': map<string, seq<string>>)
    requires Grouped(rows, keys, groups)
    requires keys' == if r.key in groups then keys else keys + [r.key]
    requires var g := if r.key in groups then groups else groups[r.key := []];
             groups' == g[r.key := g[r.key] + [r.name]]
    ensures Grouped(rows + [r], keys', groups')
  {
    GroupStep(rows, r);
    if r.key !in groups {
      NamesForAbsent(rows, r.key);
    }
  }

  /** The first loop: the `Map` from key to names, and the order its keys were inserted in. */
  method GroupNames(all: seq<Entry>) returns (keys: seq<string>, groups: map<string, seq<string>>)
    ensures Grouped(Rows(all), keys, groups)
  {
    keys, groups := [], map[];
    ghost var rows: seq<Row> := [];
    var i := 0;
    while i < |all|
      invariant 0 <= i <= |all|
      invariant rows == Rows(all[..i])
      invariant Grouped(rows, keys, groups)
    {
      var e := all[i];
      assert all[..i + 1] == all[..i] + [e];
      CollectSnoc(all[..i], e, RowOf);
      if Kept(e) {
        var clean, name := Key(e), Trim(e.name);
        assert RowOf(e) == [Row(clean, name)];
        ghost var keys0, groups0 := keys, groups;
        if clean !in groups {
          groups := groups[clean := []];
          keys := keys + [clean];
        }
        groups := groups[clean := groups[clean] + [name]];
        GroupedStep(rows, Row(clean, name), keys0, groups0, keys, groups);
        rows := rows + [Row(clean, name)];
      } else {
        assert RowOf(e) == [];
        assert rows + [] == rows;
      }
      i := i + 1;
    }
    assert all[..i] == all;
  }

  lemma EmitStep(keys: seq<string>, j: nat, rows: seq<Row>)
    requires j < |keys|
    ensures ConflictsFrom(keys[..j + 1], rows) ==
            ConflictsFrom(keys[..j], rows) + (if |NamesFor(rows, keys[j])| > 1 then [SharedValue(keys[j], NamesFor(rows, keys[j]))] else [])
  {
    assert keys[..j + 1][..j] == keys[..j] && keys[..j + 1][j] == keys[j];
  }

  /** The second loop: one message per key that two or more rows share. */
  method CheckGeneralAddressConflicts(normal: seq<Entry>, dev: seq<Entry>) returns (conflicts: seq<Issue>)
    ensures conflicts == ConflictsSpec(normal, dev)
  {
    var all := normal + dev;
    var keys, groups := GroupNames(all);
    ghost var rows := Rows(all);
    conflicts := [];
    var j := 0;
    while j < |keys|
      invariant 0 <= j <= |keys|
      invariant conflicts == ConflictsFrom(keys[..j], rows)
    {
      EmitStep(keys, j, rows);
      assert keys[j] in keys;
      var names := groups[keys[j]];
      if |names| > 1 {
        conflicts := conflicts + [SharedValue(keys[j], names)];
      }
      j := j + 1;
    }
    assert keys[..j] == keys;
  }

  /** The values the conflict messages are about, in message order. */
  function Values(cs: seq<Issue>): seq<string>
    requires forall i :: 0 <= i < |cs| ==> cs[i].SharedValue?
    ensures |Values(cs)| == |cs|
  {
    if cs == [] then [] else Values(cs[..|cs| - 1]) + [cs[|cs| - 1].value]
  }

  lemma ValuesAt(cs: seq<Issue>, i: nat)
    requires forall i :: 0 <= i < |cs| ==> cs[i].SharedValue?
    requires i < |cs|
    ensures Values(cs)[i] == cs[i].value
  {
    if i < |cs| - 1 {
      assert cs[..|cs| - 1][i] == cs[i];
      ValuesAt(cs[..|cs| - 1], i);
    }
  }

  lemma ValuesSnoc(cs: seq<Issue>, tail: seq<Issue>)
    requires forall i :: 0 <= i < |cs| ==> cs[i].SharedValue?
    requires |tail| <= 1 && forall i :: 0 <= i < |tail| ==> tail[i].SharedValue?
    ensures Values(cs + tail) == Values(cs) + (if tail == [] then [] else [tail[0].value])
  {
    if tail == [] {
      assert cs + tail == cs;
    } else {
      assert (cs + tail)[..|cs|] == cs;
    }
  }

  /** No value appears twice. */
  ghost predicate Distinct(xs: seq<string>) {
    forall i, j :: 0 <= i < j < |xs| ==> xs[i] != xs[j]
  }

  /** A row left blank in its name or its value takes no part in the grouping, wherever it sits. */
  lemma BlankRowInvisible(xs: seq<Entry>, b: Entry, ys: seq<Entry>)
    requires !Kept(b)
    ensures Rows(xs + [b] + ys) == Rows(xs + ys)
  {
    CollectAppend(xs + [b], ys, RowOf);
    CollectAppend(xs, ys, RowOf);
    CollectSnoc(xs, b, RowOf);
  }

  /** The map's keys are distinct. */
  lemma {:induction false} KeysDistinct(rows: seq<Row>)
    ensures Distinct(Keys(rows))
    decreases |rows|
  {
    if rows != [] {
      KeysDistinct(rows[..|rows| - 1]);
    }
  }

  /** A value is a key exactly when some row carries it. */
  lemma {:induction false} KeysNames(rows: seq<Row>, v: string)
    ensures v in Keys(rows) <==> NamesFor(rows, v) != []
    decreases |rows|
  {
    if rows != [] {
      KeysNames(rows[..|rows| - 1], v);
    }
  }

  /** A message is emitted for a value exactly when it is one of `keys` and two or more rows carry it. */
  lemma {:induction false} ConflictValues(keys: seq<string>, rows: seq<Row>, v: string)
    ensures v in Values(ConflictsFrom(keys, rows)) <==> v in keys && |NamesFor(rows, v)| > 1
    decreases |keys|
  {
    if keys != [] {
      var init, k := keys[..|keys| - 1], keys[|keys| - 1];
      assert keys == init + [k];
      ConflictValues(init, rows, v);
      var cs := ConflictsFrom(init, rows);
      var tail := if |NamesFor(rows, k)| > 1 then [SharedValue(k, NamesFor(rows, k))] else [];
      assert ConflictsFrom(keys, rows) == cs + tail;
      ValuesSnoc(cs, tail);
    }
  }

  /** Distinct keys give distinct messages. */
  lemma {:induction false} ConflictsDistinct(keys: seq<string>, rows: seq<Row>)
    requires Distinct(keys)
    ensures Distinct(Values(ConflictsFrom(keys, rows)))
    decreases |keys|
  {
    if keys != [] {
      var init, k := keys[..|keys| - 1], keys[|keys| - 1];
      assert Distinct(init);
      ConflictsDistinct(init, rows);
      ConflictValues(init, rows, k);
      var cs := ConflictsFrom(init, rows);
      var tail := if |NamesFor(rows, k)| > 1 then [SharedValue(k, NamesFor(rows, k))] else [];
      assert ConflictsFrom(keys, rows) == cs + tail;
      ValuesSnoc(cs, tail);
      assert k !in init;
    }
  }

  /**
   * The conflict check reports each trimmed, lower-cased value that two or more
   * kept rows of the normal and dev tables share, once, and nothing else.
   */
  lemma ConflictsExactly(normal: seq<Entry>, dev: seq<Entry>, v: string)
    ensures v in Values(ConflictsSpec(normal, dev)) <==> |NamesFor(Rows(normal + dev), v)| > 1
    ensures Distinct(Values(ConflictsSpec(normal, dev)))
  {
    var rows := Rows(normal + dev);
    ConflictValues(Keys(rows), rows, v);
    KeysNames(rows, v);
    KeysDistinct(rows);
    ConflictsDistinct(Keys(rows), rows);
  }
}
