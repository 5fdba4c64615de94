/**
 * The state of the address editor dialog (web/src/components/EditAddressesModal.tsx)
 * and its handlers: what opening it loads, the save decision with its staged
 * confirmation, and the add / remove / change / quick-add edits of the two tables.
 * Generated ids are supplied by the caller as fresh naturals.
 */
module AddressEditor {
  import opened Wrappers
  import opened JsText
  import opened EditAddresses
  import ConfirmSlot
  import Seqs

  /** What the dialog keeps in state besides its confirmation slot. */
  datatype Editor = Editor(normal: seq<Entry>, dev: seq<Entry>, intended: Option<string>)

  /** The field an input box edits. */
  datatype Field = Name | Value

  // ---------------------------------------------------------------- opening and closing

  /** The parsed pairs as table rows, with the ids `base`, `base + 1`, ... */
  function WithIds(addrs: seq<Address>, base: nat): (es: seq<Entry>)
    ensures |es| == |addrs|
    ensures forall i :: 0 <= i < |es| ==> es[i] == Entry(base + i, addrs[i].name, addrs[i].value)
  {
    seq(|addrs|, i requires 0 <= i < |addrs| => Entry(base + i, addrs[i].name, addrs[i].value))
  }

  /** The name/value pairs of the rows, forgetting their ids. */
  function Pairs(es: seq<Entry>): (addrs: seq<Address>)
    ensures |addrs| == |es|
    ensures forall i :: 0 <= i < |es| ==> addrs[i] == Address(es[i].name, es[i].value)
  {
    seq(|es|, i requires 0 <= i < |es| => Address(es[i].name, es[i].value))
  }

  /** No two rows share an id. */
  ghost predicate DistinctIds(es: seq<Entry>) {
    forall i, j :: 0 <= i < j < |es| ==> es[i].id != es[j].id
  }

  /** Every id of `es` is below `bound`. */
  ghost predicate IdsBelow(es: seq<Entry>, bound: nat) {
    forall i :: 0 <= i < |es| ==> es[i].id < bound
  }

  /** `extractedName || suggestedAddressName || null`: an empty suggestion counts as none. */
  function IntendedName(source: string, suggested: Option<string>): (r: Option<string>)
    ensures r.Some? ==> r.value != ""
    ensures IntendedNameOf(source).Some? ==> r == IntendedNameOf(source)
    ensures IntendedNameOf(source).None? ==> (r.Some? <==> suggested.Some? && suggested.value != "")
  {
    var extracted := IntendedNameOf(source);
    if extracted.Some? then extracted
    else if suggested.Some? && suggested.value != "" then suggested
    else None
  }

  /** The tables the dialog holds for a parse result: normal rows first, each with a fresh id from `base` on. */
  function Load(parsed: Parsed, base: nat, intended: Option<string>): (ed: Editor)
    ensures Pairs(ed.normal) == parsed.normal && Pairs(ed.dev) == parsed.dev
    ensures DistinctIds(ed.normal + ed.dev)
    ensures IdsBelow(ed.normal + ed.dev, base + |parsed.normal| + |parsed.dev|)
    ensures ed.intended == intended
  {
    NumberedTables(parsed.normal, parsed.dev, base);
    Editor(WithIds(parsed.normal, base), WithIds(parsed.dev, base + |parsed.normal|), intended)
  }

  /** The effect that runs when the dialog opens: both tables are loaded from the manifest text. */
  function Opened(toml: string, source: string, suggested: Option<string>, base: nat): (ed: Editor)
    ensures Pairs(ed.normal) == ParseSpec(toml).normal && Pairs(ed.dev) == ParseSpec(toml).dev
    ensures DistinctIds(ed.normal + ed.dev)
    ensures ed.intended == IntendedName(source, suggested)
  {
    Load(ParseSpec(toml), base, IntendedName(source, suggested))
  }

  /** Numbering two tables of pairs: the rows give back the pairs, with distinct ids below the next fresh one. */
  lemma NumberedTables(normal: seq<Address>, dev: seq<Address>, base: nat)
    ensures var n, d := WithIds(normal, base), WithIds(dev, base + |normal|);
            Pairs(n) == normal && Pairs(d) == dev &&
            DistinctIds(n + d) && IdsBelow(n + d, base + |normal| + |dev|)
  {
    PairsWithIds(normal, base);
    PairsWithIds(dev, base + |normal|);
    TablesIds(normal, dev, base);
  }

  lemma PairsWithIds(addrs: seq<Address>, base: nat)
    ensures Pairs(WithIds(addrs, base)) == addrs
  {
  }

  /** Numbering the dev rows on from the normal ones gives every row its own id. */
  lemma TablesIds(normal: seq<Address>, dev: seq<Address>, base: nat)
    ensures var all := WithIds(normal, base) + WithIds(dev, base + |normal|);
            DistinctIds(all) && IdsBelow(all, base + |normal| + |dev|)
  {
    var all := WithIds(normal, base) + WithIds(dev, base + |normal|);
    assert forall i :: 0 <= i < |all| ==> all[i].id == base + i;
  }

  /** The effect that runs when the dialog closes: the intended name is forgotten, the tables are kept. */
  function Closed(ed: Editor): (r: Editor)
    ensures r.normal == ed.normal && r.dev == ed.dev && r.intended.None?
  {
    ed.(intended := None)
  }

  /** The banner of the status effect. */
  function StatusOf(isOpen: bool, ed: Editor): Option<Status> {
    AddressStatus(isOpen, ed.intended, ed.normal)
  }

  /** A closed dialog shows no banner, and neither does a dialog that was closed and not reopened. */
  lemma ClosedShowsNothing(isOpen: bool, ed: Editor)
    ensures StatusOf(false, ed).None? && StatusOf(isOpen, Closed(ed)).None?
  {
  }

  // ---------------------------------------------------------------- the list edits

  /** `handleAddAddress`: one blank row at the end. */
  function AddBlank(es: seq<Entry>, id: nat): (r: seq<Entry>)
    ensures |r| == |es| + 1 && r[..|es|] == es && r[|es|] == Entry(id, "", "")
  {
    es + [Entry(id, "", "")]
  }

  /** `handleRemoveAddress`: the rows whose id differs, in their order. */
  function Remove(es: seq<Entry>, id: nat): (r: seq<Entry>)
    ensures forall e :: e in r <==> e in es && e.id != id
    ensures |r| <= |es|
    decreases |es|
  {
    if es == [] then []
    else
      var init, last := Remove(es[..|es| - 1], id), es[|es| - 1];
      assert forall e :: e in es <==> e in es[..|es| - 1] || e == last by {
        assert es == es[..|es| - 1] + [last];
      }
      init + (if last.id != id then [last] else [])
  }

  /** The row as edited in `field`. */
  function WithField(e: Entry, field: Field, v: string): Entry {
    match field
    case Name => e.(name := v)
    case Value => e.(value := v)
  }

  /** `handleChangeAddress`: every row with that id gets the new text in that field; nothing else moves. */
  function Change(es: seq<Entry>, id: nat, field: Field, v: string): (r: seq<Entry>)
    ensures |r| == |es|
    ensures forall i :: 0 <= i < |es| ==> r[i].id == es[i].id
    ensures forall i :: 0 <= i < |es| && es[i].id != id ==> r[i] == es[i]
    ensures forall i :: 0 <= i < |es| && es[i].id == id ==>
              (field == Name ==> r[i].name == v && r[i].value == es[i].value) &&
              (field == Value ==> r[i].value == v && r[i].name == es[i].name)
    decreases |es|
  {
    if es == [] then []
    else
      var last := es[|es| - 1];
      Change(es[..|es| - 1], id, field, v) + [if last.id == id then WithField(last, field, v) else last]
  }

  /** `handleQuickAddIntendedAddress`: without an intended name nothing happens. */
  function QuickAdd(normal: seq<Entry>, intended: Option<string>, id: nat): (r: seq<Entry>)
    ensures intended.None? || intended.value == "" ==> r == normal
    ensures intended.Some? && intended.value != "" ==> r == normal + [Entry(id, intended.value, "0x0")]
  {
    if intended.None? || intended.value == "" then normal else normal + [Entry(id, intended.value, "0x0")]
  }

  /** A row at the end decides a lookup only when no earlier row has the name. */
  lemma FindSnoc(es: seq<Entry>, e: Entry, name: string)
    ensures Find(es + [e], name) == if Find(es, name).Some? then Find(es, name) else if e.name == name then Some(e) else None
  {
    var k := Seqs.FirstIndex(es, NamedBy(name), 0);
    if k < |es| {
      Seqs.FirstIndexIs(es + [e], NamedBy(name), 0, k);
    } else if e.name == name {
      Seqs.FirstIndexIs(es + [e], NamedBy(name), 0, |es|);
    }
  }

  /** A blank row does not change the formatted text. */
  lemma AddBlankFormat(es: seq<Entry>, id: nat)
    ensures KeptLines(AddBlank(es, id)) == KeptLines(es) && Block(AddBlank(es, id)) == Block(es)
    ensures HasKept(AddBlank(es, id)) == HasKept(es)
  {
    var r := AddBlank(es, id);
    assert r[..|r| - 1] == es;
    assert IsBlank("");
  }

  /** Adding a blank row to either table changes neither the preview nor the conflicts. */
  lemma AddBlankInvisible(normal: seq<Entry>, dev: seq<Entry>, id: nat)
    ensures FormatSpec(AddBlank(normal, id), dev) == FormatSpec(normal, dev)
    ensures FormatSpec(normal, AddBlank(dev, id)) == FormatSpec(normal, dev)
    ensures ConflictsSpec(AddBlank(normal, id), dev) == ConflictsSpec(normal, dev)
    ensures ConflictsSpec(normal, AddBlank(dev, id)) == ConflictsSpec(normal, dev)
  {
    AddBlankNormal(normal, dev, id);
    AddBlankDev(normal, dev, id);
  }

  lemma AddBlankNormal(normal: seq<Entry>, dev: seq<Entry>, id: nat)
    ensures FormatSpec(AddBlank(normal, id), dev) == FormatSpec(normal, dev)
    ensures ConflictsSpec(AddBlank(normal, id), dev) == ConflictsSpec(normal, dev)
  {
    AddBlankFormat(normal, id);
    var b := Entry(id, "", "");
    assert IsBlank("");
    BlankRowInvisible(normal, b, dev);
    assert AddBlank(normal, id) + dev == normal + [b] + dev;
  }

  lemma AddBlankDev(normal: seq<Entry>, dev: seq<Entry>, id: nat)
    ensures FormatSpec(normal, AddBlank(dev, id)) == FormatSpec(normal, dev)
    ensures ConflictsSpec(normal, AddBlank(dev, id)) == ConflictsSpec(normal, dev)
  {
    AddBlankFormat(dev, id);
    var b := Entry(id, "", "");
    assert IsBlank("");
    BlankRowInvisible(normal + dev, b, []);
    assert normal + AddBlank(dev, id) == (normal + dev) + [b] + [];
    assert (normal + dev) + [] == normal + dev;
  }

  /** ... nor the banner for a non-empty intended name. */
  lemma AddBlankStatus(name: string, normal: seq<Entry>, id: nat)
    requires name != ""
    ensures Classify(name, AddBlank(normal, id)) == Classify(name, normal)
  {
    FindSnoc(normal, Entry(id, "", ""), name);
  }

  /** Removing an id that no row has changes nothing. */
  lemma {:induction false} RemoveAbsent(es: seq<Entry>, id: nat)
    requires forall i :: 0 <= i < |es| ==> es[i].id != id
    ensures Remove(es, id) == es
    decreases |es|
  {
    if es != [] {
      var init, last := es[..|es| - 1], es[|es| - 1];
      RemoveAbsent(init, id);
      assert Remove(es, id) == Remove(init, id) + [last];
      assert init + [last] == es;
    }
  }

  /** With distinct ids, removing the id of row `k` removes exactly that row. */
  lemma {:induction false} RemoveOne(es: seq<Entry>, k: nat)
    requires k < |es| && DistinctIds(es)
    ensures Remove(es, es[k].id) == es[..k] + es[k + 1..]
    decreases |es|
  {
    var id, init := es[k].id, es[..|es| - 1];
    if k == |es| - 1 {
      RemoveAbsent(init, id);
    } else {
      RemoveOne(init, k);
      Seqs.CutBeforeLast(es, k);
    }
  }

  /** Changing an id that no row has changes nothing. */
  lemma ChangeAbsent(es: seq<Entry>, id: nat, field: Field, v: string)
    requires forall i :: 0 <= i < |es| ==> es[i].id != id
    ensures Change(es, id, field, v) == es
  {
    var r := Change(es, id, field, v);
    assert forall i :: 0 <= i < |es| ==> r[i] == es[i];
  }

  /** After a quick add, a missing intended name is configured correctly. */
  lemma QuickAddFixesMissing(normal: seq<Entry>, name: string, id: nat)
    requires name != "" && Classify(name, normal).Missing?
    ensures Classify(name, QuickAdd(normal, Some(name), id)) == Correct(name)
  {
    var r := QuickAdd(normal, Some(name), id);
    assert r[|normal|] == Entry(id, name, "0x0");
    assert ToLower("0x0") == "0x0";
    ClassifyFirst(name, r, |normal|);
  }

  /** A quick add cannot repair a wrong value: the first row with the name still decides. */
  lemma QuickAddKeepsWrongValue(normal: seq<Entry>, name: string, id: nat)
    requires name != "" && Classify(name, normal).WrongValue?
    ensures Classify(name, QuickAdd(normal, Some(name), id)) == Classify(name, normal)
  {
    FindSnoc(normal, Entry(id, name, "0x0"), name);
  }

  /** A fresh id keeps the ids distinct, after an add or a quick add. */
  lemma FreshIdKeepsDistinct(es: seq<Entry>, e: Entry, bound: nat)
    requires DistinctIds(es) && IdsBelow(es, bound) && e.id >= bound
    ensures DistinctIds(es + [e]) && IdsBelow(es + [e], e.id + 1)
  {
  }

  // ---------------------------------------------------------------- saving

  /** The intended-name problem reported on save; unlike the banner, it does not look at `isOpen`. */
  function ModuleIssue(intended: Option<string>, normal: seq<Entry>): (r: Option<Issue>)
    ensures r.None? <==> AddressStatus(true, intended, normal).None? || AddressStatus(true, intended, normal).value.Correct?
    ensures r.Some? ==> (r.value.NameMissing? <==> AddressStatus(true, intended, normal).value.Missing?)
    ensures r.Some? && r.value.NameWrongValue? ==> AddressStatus(true, intended, normal) == Some(WrongValue(r.value.name, r.value.value))
  {
    if intended.None? || intended.value == "" then None
    else
      match Classify(intended.value, normal)
      case Missing(n) => Some(NameMissing(n))
      case WrongValue(n, v) => Some(NameWrongValue(n, v))
      case Correct(_) => None
  }

  /** The list shown before saving: the intended-name problem first, then the shared values. */
  function SaveIssues(intended: Option<string>, normal: seq<Entry>, dev: seq<Entry>): (issues: seq<Issue>)
    ensures issues == [] <==> ModuleIssue(intended, normal).None? && ConflictsSpec(normal, dev) == []
    ensures ModuleIssue(intended, normal).Some? ==> issues[0] == ModuleIssue(intended, normal).value && issues[1..] == ConflictsSpec(normal, dev)
    ensures ModuleIssue(intended, normal).None? ==> issues == ConflictsSpec(normal, dev)
  {
    var head := match ModuleIssue(intended, normal) case Some(i) => [i] case None => [];
    head + ConflictsSpec(normal, dev)
  }

  /** What the save confirmation's `onConfirm` does, kept as data. */
  datatype SaveAction = DoNothing | SaveAndClose(toml: string)

  /** The props the dialog calls. */
  datatype Effect = OnSave(toml: string) | OnClose

  function Perform(a: SaveAction): (effects: seq<Effect>)
    ensures a.DoNothing? ==> effects == []
    ensures a.SaveAndClose? ==> effects == [OnSave(a.toml), OnClose]
  {
    match a
    case DoNothing => []
    case SaveAndClose(t) => [OnSave(t), OnClose]
  }

  const IssuesTitle := "地址配置问题"

  /** The dialog's confirmation slot as it starts out. */
  method NewSaveSlot() returns (slot: ConfirmSlot.Slot<seq<Issue>, SaveAction>)
    ensures fresh(slot)
    ensures !slot.isOpen && slot.title == "" && slot.message == [] && slot.onConfirm == DoNothing && slot.variant == None
  {
    slot := new ConfirmSlot.Slot([], DoNothing);
  }

  /**
   * `handleSave`: with no issue the formatted text is saved and the dialog
   * closes at once; otherwise a warning confirmation listing the issues is
   * staged and nothing is saved until it is confirmed.
   */
  method HandleSave(slot: ConfirmSlot.Slot<seq<Issue>, SaveAction>, ed: Editor) returns (effects: seq<Effect>)
    modifies slot
    ensures var issues := SaveIssues(ed.intended, ed.normal, ed.dev);
            var toml := FormatSpec(ed.normal, ed.dev);
            if issues == [] then
              effects == Perform(SaveAndClose(toml)) &&
              slot.isOpen == old(slot.isOpen) && slot.title == old(slot.title) && slot.message == old(slot.message) &&
              slot.onConfirm == old(slot.onConfirm) && slot.variant == old(slot.variant)
            else
              effects == [] && slot.isOpen && slot.title == IssuesTitle && slot.message == issues &&
              slot.onConfirm == SaveAndClose(toml) && slot.variant == Some(ConfirmSlot.Warning)
  {
    var general := CheckGeneralAddressConflicts(ed.normal, ed.dev);
    var own := ModuleIssue(ed.intended, ed.normal);
    var all := (if own.Some? then [own.value] else []) + general;
    var toml := FormatAddressesToToml(ed.normal, ed.dev);
    if |all| > 0 {
      slot.Stage(IssuesTitle, all, SaveAndClose(toml), Some(ConfirmSlot.Warning));
      return [];
    }
    effects := Perform(SaveAndClose(toml));
  }

  /** Confirming the staged warning has exactly the effects of a save without issues. */
  method ConfirmSave(slot: ConfirmSlot.Slot<seq<Issue>, SaveAction>, ed: Editor) returns (effects: seq<Effect>)
    requires SaveIssues(ed.intended, ed.normal, ed.dev) != []
    modifies slot
    ensures effects == [OnSave(FormatSpec(ed.normal, ed.dev)), OnClose]
    ensures !slot.isOpen
  {
    var staged := HandleSave(slot, ed);
    var action := slot.Confirm();
    effects := staged + Perform(action);
  }
}
