/**
 * The option helpers of the older command-line front end (api/cli.rs):
 * `parse_deps` turns a comma-separated list into trimmed paths and
 * `parse_addresses` turns `name=address` pieces into pairs. Parsing the
 * address itself (`NumericalAddress::parse_str`) belongs to the Move
 * compiler and is a parameter here; a path is kept as its text.
 */
module CliOptions {
  import opened Wrappers
  import opened Seqs
  import JsText
  import RustText

  // ---------------------------------------------------------------- parse_deps

  /** `deps.split(',').map(|s| PathBuf::from(s.trim()))`. */
  function ParseDeps(deps: string): (paths: seq<string>)
    ensures |paths| == JsText.CountChar(deps, ',') + 1 == |JsText.Split(deps, ',')|
    ensures forall i :: 0 <= i < |paths| ==> paths[i] == RustText.Trim(JsText.Split(deps, ',')[i])
    ensures forall i :: 0 <= i < |paths| ==> ',' !in paths[i]
    ensures forall i :: 0 <= i < |paths| ==>
      paths[i] == "" || (!RustText.IsWhitespace(paths[i][0]) && !RustText.IsWhitespace(paths[i][|paths[i]| - 1]))
  {
    var pieces := JsText.Split(deps, ',');
    JsText.SplitLength(deps, ',');
    forall i | 0 <= i < |pieces|
      ensures ',' !in RustText.Trim(pieces[i])
    {
      RustText.TrimKeepsOut(pieces[i], ',');
    }
    seq(|pieces|, i requires 0 <= i < |pieces| => RustText.Trim(pieces[i]))
  }

  /** Paths that hold no comma and no white space at their ends come back as they were joined. */
  lemma ParseDepsJoin(paths: seq<string>)
    requires |paths| >= 1
    requires forall i :: 0 <= i < |paths| ==> ',' !in paths[i]
    requires forall i :: 0 <= i < |paths| ==>
      paths[i] == "" || (!RustText.IsWhitespace(paths[i][0]) && !RustText.IsWhitespace(paths[i][|paths[i]| - 1]))
    ensures ParseDeps(JsText.Join(paths, ',')) == paths
  {
    JsText.SplitJoin(paths, ',');
    forall i | 0 <= i < |paths|
      ensures RustText.Trim(paths[i]) == paths[i]
    {
      RustText.TrimUnpadded(paths[i]);
    }
  }

  /**
   * Comma-free paths each padded with white space on either side, joined by
   * commas, come back as the paths without their padding.
   */
  lemma ParseDepsPadded(lefts: seq<string>, paths: seq<string>, rights: seq<string>)
    requires |paths| >= 1 && |lefts| == |paths| == |rights|
    requires forall i :: 0 <= i < |paths| ==> ',' !in paths[i]
    requires forall i :: 0 <= i < |paths| ==> Unpadded(paths[i])
    requires forall i :: 0 <= i < |paths| ==> RustText.AllWhitespace(lefts[i]) && RustText.AllWhitespace(rights[i])
    ensures ParseDeps(JsText.Join(Padded(lefts, paths, rights), ',')) == paths
  {
    var pieces := Padded(lefts, paths, rights);
    forall i | 0 <= i < |pieces|
      ensures ',' !in pieces[i]
    {
      assert !RustText.IsWhitespace(',');
      CommaFreePadding(lefts[i], paths[i], rights[i]);
    }
    JsText.SplitJoin(pieces, ',');
    forall i | 0 <= i < |paths|
      ensures RustText.Trim(pieces[i]) == paths[i]
    {
      RustText.TrimPadded(lefts[i], paths[i], rights[i]);
    }
  }

  /** Each path with its padding around it. */
  function Padded(lefts: seq<string>, paths: seq<string>, rights: seq<string>): (pieces: seq<string>)
    requires |lefts| == |paths| == |rights|
    ensures |pieces| == |paths|
    ensures forall i :: 0 <= i < |paths| ==> pieces[i] == lefts[i] + paths[i] + rights[i]
  {
    seq(|paths|, i requires 0 <= i < |paths| => lefts[i] + paths[i] + rights[i])
  }

  /** White-space padding brings no comma into a comma-free path. */
  lemma CommaFreePadding(a: string, p: string, b: string)
    requires RustText.AllWhitespace(a) && RustText.AllWhitespace(b) && ',' !in p
    ensures ',' !in a + p + b
  {
    assert !RustText.IsWhitespace(',');
    var s := a + p + b;
    forall i | 0 <= i < |s|
      ensures s[i] != ','
    {
      if i < |a| {
        assert s[i] == a[i];
      } else if i < |a| + |p| {
        assert s[i] == p[i - |a|];
      } else {
        assert s[i] == b[i - |a| - |p|];
      }
    }
  }

  // ---------------------------------------------------------------- parse_addresses

  /** Text the checks see as already trimmed. */
  predicate Unpadded(t: string) {
    t == "" || (!RustText.IsWhitespace(t[0]) && !RustText.IsWhitespace(t[|t| - 1]))
  }

  /**
   * One piece of `parse_addresses`: kept only when splitting it at `=` gives
   * exactly two parts and the trimmed right part parses as an address; the
   * name is the trimmed left part.
   */
  function AddressEntry<A>(piece: string, parse: string -> Option<A>): seq<(string, A)> {
    var parts := JsText.Split(piece, '=');
    if |parts| == 2 then
      match parse(RustText.Trim(parts[1]))
      case Some(addr) => [(RustText.Trim(parts[0]), addr)]
      case None => []
    else []
  }

  function EntryOf<A>(parse: string -> Option<A>): string -> seq<(string, A)> {
    piece => AddressEntry(piece, parse)
  }

  /** `addresses.split(',').filter_map(...).collect()`. */
  function ParseAddresses<A>(addresses: string, parse: string -> Option<A>): seq<(string, A)> {
    Collect(JsText.Split(addresses, ','), EntryOf(parse))
  }

  /** A piece yields a pair exactly when it holds one `=` and its trimmed right side parses; the pair is its trimmed name and the parsed address. */
  lemma EntryMeaning<A>(piece: string, parse: string -> Option<A>)
    ensures |JsText.Split(piece, '=')| == JsText.CountChar(piece, '=') + 1
    ensures var parts := JsText.Split(piece, '=');
      (AddressEntry(piece, parse) != [] <==> |parts| == 2 && parse(RustText.Trim(parts[1])).Some?) &&
      (AddressEntry(piece, parse) != [] ==>
        AddressEntry(piece, parse) == [(RustText.Trim(parts[0]), parse(RustText.Trim(parts[1])).value)])
  {
    JsText.SplitLength(piece, '=');
  }

  /** Every pair comes from one comma-separated piece with a single `=`. */
  lemma PairSource<A>(addresses: string, parse: string -> Option<A>, pair: (string, A)) returns (i: nat)
    requires pair in ParseAddresses(addresses, parse)
    ensures i < |JsText.Split(addresses, ',')|
    ensures var parts := JsText.Split(JsText.Split(addresses, ',')[i], '=');
      |parts| == 2 && pair.0 == RustText.Trim(parts[0]) && parse(RustText.Trim(parts[1])) == Some(pair.1)
  {
    var pieces := JsText.Split(addresses, ',');
    i := CollectSource(pieces, EntryOf(parse), pair);
    var piece := pieces[i];
    assert pair in AddressEntry(piece, parse);
    EntryMeaning(piece, parse);
  }

  /** The pairs of two comma-joined lists are the pairs of the first, then those of the second. */
  lemma ParseAddressesAppend<A>(a: string, b: string, parse: string -> Option<A>)
    ensures ParseAddresses(a + "," + b, parse) == ParseAddresses(a, parse) + ParseAddresses(b, parse)
  {
    assert a + "," + b == a + [','] + b;
    JsText.SplitConcat(a, ',', b);
    CollectAppend(JsText.Split(a, ','), JsText.Split(b, ','), EntryOf(parse));
  }

  /** A text without commas is a single piece. */
  lemma SinglePiece<A>(piece: string, parse: string -> Option<A>)
    requires ',' !in piece
    ensures ParseAddresses(piece, parse) == AddressEntry(piece, parse)
  {
    JsText.SplitNoSep(piece, ',');
    CollectSnoc([], piece, EntryOf(parse));
    assert [] + [piece] == [piece];
  }

  lemma OneEntry<A>(name: string, value: string, parse: string -> Option<A>, addr: A)
    requires '=' !in name && '=' !in value
    requires Unpadded(name) && Unpadded(value) && parse(value) == Some(addr)
    ensures AddressEntry(name + "=" + value, parse) == [(name, addr)]
  {
    assert name + "=" + value == name + ['='] + value;
    JsText.SplitAtSep(name, '=', value);
    JsText.SplitNoSep(value, '=');
    RustText.TrimUnpadded(name);
    RustText.TrimUnpadded(value);
  }

  /** `name=address`, with neither side holding `,` or `=` or padding, gives back that one pair. */
  lemma ParseOneAddress<A>(name: string, value: string, parse: string -> Option<A>, addr: A)
    requires ',' !in name && '=' !in name && ',' !in value && '=' !in value
    requires Unpadded(name) && Unpadded(value) && parse(value) == Some(addr)
    ensures ParseAddresses(name + "=" + value, parse) == [(name, addr)]
  {
    var piece := name + "=" + value;
    assert forall k :: 0 <= k < |piece| ==> piece[k] != ',' by {
      assert piece == name + ['='] + value;
    }
    SinglePiece(piece, parse);
    OneEntry(name, value, parse, addr);
  }
}
