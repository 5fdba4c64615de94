/**
 * Recognising a Move `module <address>::<name>` header on one line of source,
 * the pattern behind both "intended address" extractions of the web front end
 * (web/src/components/EditAddressesModal.tsx and web/src/App.tsx).
 */
module ModuleHeader {
  import opened Wrappers
  import opened JsText
  import Seqs

  /** `[a-zA-Z_][a-zA-Z0-9_]*`. */
  predicate IsIdentifier(id: string) {
    id != "" && !('0' <= id[0] <= '9') && forall i :: 0 <= i < |id| ==> IsWordChar(id[i])
  }

  /** What may follow the identifier: `::`, or, in the brace form, also `\s*\{`. */
  predicate Terminates(rest: string, braceForm: bool) {
    StartsWith(rest, "::") || (braceForm && OccursAt(rest, "{", RunLength(rest, 0, Space)))
  }

  /** Where the identifier starts: after `module` and the run of white space behind it. */
  function IdStart(t: string): (at: nat)
    requires StartsWith(t, "module")
    ensures 6 <= at <= |t|
  {
    6 + RunLength(t, 6, Space)
  }

  /**
   * Group 1 of `^module\s+([a-zA-Z_][a-zA-Z0-9_]*)::` on `t`, or of
   * `^module\s+([a-zA-Z_][a-zA-Z0-9_]*)(::|\s*\{)` when `braceForm`.
   * `\s+` must take the whole run of white space and the identifier the whole
   * run of word characters, since neither `[a-zA-Z_]` nor `:`, `{` and `\s`
   * overlap with the class before them, so backtracking finds nothing else.
   */
  function Match(t: string, braceForm: bool): (r: Option<string>)
    ensures r.Some? ==> IsIdentifier(r.value) && StartsWith(t, "module")
    ensures r.Some? ==> IdStart(t) > 6 && OccursAt(t, r.value, IdStart(t))
  {
    if !StartsWith(t, "module") then None
    else
      var at := IdStart(t);
      var id := t[at..at + RunLength(t, at, Word)];
      if at > 6 && IsIdentifier(id) && Terminates(t[at + |id|..], braceForm) then Some(id) else None
  }

  /** Whatever `Match` returns sits in a line of the documented shape. */
  lemma MatchSound(t: string, braceForm: bool)
    requires Match(t, braceForm).Some?
    ensures var id, at := Match(t, braceForm).value, IdStart(t);
            t == "module" + t[6..at] + id + t[at + |id|..] && t[6..at] != "" && AllSpace(t[6..at]) &&
            Terminates(t[at + |id|..], braceForm)
  {
    var at := IdStart(t);
    var id := t[at..at + RunLength(t, at, Word)];
    assert Match(t, braceForm) == Some(id);
    Seqs.SplitThree(t, at, at + |id|);
    assert t[..at] == "module" + t[6..at] by {
      Seqs.SplitThree(t[..at], 6, at);
    }
    forall i | 0 <= i < at - 6 ensures IsSpace(t[6..at][i]) {
      assert InClass(t[6 + i], Space);
    }
  }

  /** A terminator never starts with a word character. */
  lemma TerminatorNotWord(rest: string, braceForm: bool)
    requires Terminates(rest, braceForm)
    ensures rest != "" && !IsWordChar(rest[0])
  {
    if !StartsWith(rest, "::") {
      var k := RunLength(rest, 0, Space);
      assert rest[k..k + 1][0] == rest[k];
      assert k > 0 ==> InClass(rest[0], Space);
    }
  }

  /** The run of `cls` characters that starts right after `p` is exactly `u`. */
  lemma {:induction false} RunOver(p: string, u: string, v: string, cls: CharClass)
    requires forall i :: 0 <= i < |u| ==> InClass(u[i], cls)
    requires v == "" || !InClass(v[0], cls)
    ensures RunLength(p + u + v, |p|, cls) == |u|
    decreases |u|
  {
    if u != "" {
      assert p + u + v == (p + [u[0]]) + u[1..] + v;
      RunOver(p + [u[0]], u[1..], v, cls);
    }
  }



  lemma SpaceNotWord(c: char)
    requires IsWordChar(c)
    ensures !IsSpace(c)
  {
  }

  /** After "module" and a run of white space, the identifier starts where the next word character is. */
  lemma IdStartAfter(w: string, u: string)
    requires AllSpace(w) && u != "" && IsWordChar(u[0])
    ensures StartsWith("module" + w + u, "module") && IdStart("module" + w + u) == 6 + |w|
  {
    SpaceNotWord(u[0]);
    assert forall i :: 0 <= i < |w| ==> InClass(w[i], Space);
    RunOver("module", w, u, Space);
    assert ("module" + w + u)[..6] == "module";
  }

  /** Every line of the documented shape is recognised, with its identifier. */
  lemma MatchComplete(w: string, id: string, rest: string, braceForm: bool)
    requires w != "" && AllSpace(w)
    requires IsIdentifier(id)
    requires Terminates(rest, braceForm)
    ensures Match("module" + w + id + rest, braceForm) == Some(id)
  {
    var t := "module" + w + id + rest;
    var at := 6 + |w|;
    assert t == "module" + w + (id + rest);
    IdStartAfter(w, id + rest);
    TerminatorNotWord(rest, braceForm);
    assert t == ("module" + w) + id + rest;
    RunOver("module" + w, id, rest, Word);
    assert t[at..at + |id|] == id;
    assert t[at + |id|..] == rest;
    MatchOf(t, id, braceForm);
  }

  /** `Match` accepts an identifier found at the identifier's start and followed by a terminator. */
  lemma MatchOf(t: string, id: string, braceForm: bool)
    requires StartsWith(t, "module") && IdStart(t) > 6
    requires RunLength(t, IdStart(t), Word) == |id| && t[IdStart(t)..IdStart(t) + |id|] == id
    requires IsIdentifier(id) && Terminates(t[IdStart(t) + |id|..], braceForm)
    ensures Match(t, braceForm) == Some(id)
  {
  }

  /** What one source line contributes: the name in its trimmed text, if any. */
  function LineName(line: string, braceForm: bool): Option<string> {
    Match(Trim(line), braceForm)
  }

  /** What each of `lines` contributes, in order. */
  function LineNames(lines: seq<string>, braceForm: bool): (names: seq<Option<string>>)
    ensures |names| == |lines|
    ensures forall i :: 0 <= i < |lines| ==> names[i] == LineName(lines[i], braceForm)
  {
    seq(|lines|, i requires 0 <= i < |lines| => LineName(lines[i], braceForm))
  }

  /** The index of the first of `names`, from `from` on, that holds a name; `|names|` when none does. */
  function FirstHit(names: seq<Option<string>>, from: nat): (k: nat)
    requires from <= |names|
    ensures from <= k <= |names|
    ensures forall j :: from <= j < k ==> names[j].None?
    ensures k < |names| ==> names[k].Some?
    decreases |names| - from
  {
    if from == |names| || names[from].Some? then from
    else FirstHit(names, from + 1)
  }

  /** The name recognised on the first of `lines` that has one. */
  function FirstName(lines: seq<string>, braceForm: bool): Option<string> {
    var names := LineNames(lines, braceForm);
    var k := FirstHit(names, 0);
    if k < |names| then names[k] else None
  }

  /** `FirstName` is `None` exactly when no line names a module. */
  lemma FirstNameNone(lines: seq<string>, braceForm: bool)
    ensures FirstName(lines, braceForm).None? <==> forall i :: 0 <= i < |lines| ==> LineName(lines[i], braceForm).None?
  {
    var names := LineNames(lines, braceForm);
    assert forall i :: 0 <= i < |lines| ==> LineName(lines[i], braceForm) == names[i];
  }

  /** Any name with only empty entries before it is the one `FirstHit` finds. */
  lemma {:induction false} FirstHitIs(names: seq<Option<string>>, from: nat, k: nat)
    requires from <= k < |names|
    requires names[k].Some?
    requires forall j :: from <= j < k ==> names[j].None?
    ensures FirstHit(names, from) == k
    decreases k - from
  {
    if from < k {
      FirstHitIs(names, from + 1, k);
    }
  }

  /** `FirstName` yields the name on the first line that has one. */
  lemma FirstNameAt(lines: seq<string>, braceForm: bool, k: nat)
    requires k < |lines| && LineName(lines[k], braceForm).Some?
    requires forall j :: 0 <= j < k ==> LineName(lines[j], braceForm).None?
    ensures FirstName(lines, braceForm) == LineName(lines[k], braceForm)
  {
    FirstHitIs(LineNames(lines, braceForm), 0, k);
  }

  /**
   * The front end's loop over the first `limit` lines of `source`: trim, try the
   * header pattern, stop at the first line that yields a name.
   */
  method ScanModuleName(source: string, limit: nat, braceForm: bool) returns (name: Option<string>)
    ensures name == FirstName(Take(Split(source, '\n'), limit), braceForm)
  {
    var lines := Take(Split(source, '\n'), limit);
    var i := 0;
    while i < |lines|
      invariant 0 <= i <= |lines|
      invariant FirstHit(LineNames(lines, braceForm), 0) == FirstHit(LineNames(lines, braceForm), i)
    {
      var m := Match(Trim(lines[i]), braceForm);
      if m.Some? {
        return m;
      }
      i := i + 1;
    }
    return None;
  }
}
