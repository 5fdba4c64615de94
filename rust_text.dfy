/**
 * The Rust `str` operations the API server relies on: `char::is_whitespace`
 * (the Unicode White_Space property), `trim`, `split_whitespace` and `lines`.
 * `starts_with`, `contains` and `split(ch)` behave as their JavaScript
 * counterparts in JsText.
 */
module RustText {
  import opened JsText

  /** Unicode White_Space, as tested by `char::is_whitespace`. */
  predicate IsWhitespace(c: char) {
    var n := c as int;
    (0x09 <= n <= 0x0D) || n == 0x20 || n == 0x85 || n == 0xA0 || n == 0x1680 ||
    (0x2000 <= n <= 0x200A) || n == 0x2028 || n == 0x2029 || n == 0x202F ||
    n == 0x205F || n == 0x3000
  }

  /** The length of the run of white space starting at `from`. */
  function SpaceLength(s: string, from: nat): (k: nat)
    requires from <= |s|
    ensures from + k <= |s|
    ensures forall i :: from <= i < from + k ==> IsWhitespace(s[i])
    ensures from + k == |s| || !IsWhitespace(s[from + k])
    decreases |s| - from
  {
    if from < |s| && IsWhitespace(s[from]) then 1 + SpaceLength(s, from + 1) else 0
  }

  /** Where the run of white space that ends `s[lo..hi]` begins. */
  function TailStart(s: string, lo: nat, hi: nat): (k: nat)
    requires lo <= hi <= |s|
    ensures lo <= k <= hi
    ensures forall i :: k <= i < hi ==> IsWhitespace(s[i])
    ensures k == lo || !IsWhitespace(s[k - 1])
    decreases hi
  {
    if hi > lo && IsWhitespace(s[hi - 1]) then TailStart(s, lo, hi - 1) else hi
  }

  /** `s.trim()`: the text between the leading and the trailing run of white space. */
  function Trim(s: string): (r: string)
    ensures r == "" || (!IsWhitespace(r[0]) && !IsWhitespace(r[|r| - 1]))
    ensures |r| <= |s|
  {
    var lo := SpaceLength(s, 0);
    s[lo..TailStart(s, lo, |s|)]
  }

  /** `s.trim().is_empty()` holds exactly for all-white-space text. */
  lemma BlankIffWhitespace(s: string)
    ensures Trim(s) == "" <==> forall i :: 0 <= i < |s| ==> IsWhitespace(s[i])
  {
    var lo := SpaceLength(s, 0);
    var hi := TailStart(s, lo, |s|);
    if forall i :: 0 <= i < |s| ==> IsWhitespace(s[i]) {
      assert lo == |s|;
    }
    if Trim(s) == "" {
      assert hi == lo;
      assert lo == |s|;
    }
  }

  /** Every character of `s` is white space. */
  predicate AllWhitespace(s: string) {
    forall i :: 0 <= i < |s| ==> IsWhitespace(s[i])
  }

  /** A white-space run from `from` that ends at `k` is the run `SpaceLength` measures. */
  lemma {:induction false} SpaceLengthIs(s: string, from: nat, k: nat)
    requires from <= k <= |s| && forall i :: from <= i < k ==> IsWhitespace(s[i])
    requires k == |s| || !IsWhitespace(s[k])
    ensures SpaceLength(s, from) == k - from
    decreases k - from
  {
    if from < k {
      SpaceLengthIs(s, from + 1, k);
    }
  }

  /** A trailing white-space run that starts at `k`, after `lo` or a non-space character, is the one `TailStart` finds. */
  lemma {:induction false} TailStartIs(s: string, lo: nat, hi: nat, k: nat)
    requires lo <= k <= hi <= |s| && forall i :: k <= i < hi ==> IsWhitespace(s[i])
    requires k == lo || !IsWhitespace(s[k - 1])
    ensures TailStart(s, lo, hi) == k
    decreases hi
  {
    if k < hi {
      TailStartIs(s, lo, hi - 1, k);
    }
  }

  /** Padding unpadded text with white space on either side does not change what `trim` gives. */
  lemma TrimPadded(a: string, t: string, b: string)
    requires AllWhitespace(a) && AllWhitespace(b)
    requires t == "" || (!IsWhitespace(t[0]) && !IsWhitespace(t[|t| - 1]))
    ensures Trim(a + t + b) == t
  {
    var s := a + t + b;
    assert forall i :: 0 <= i < |a| ==> s[i] == a[i];
    assert forall i :: |a| + |t| <= i < |s| ==> s[i] == b[i - |a| - |t|];
    if t == "" {
      SpaceLengthIs(s, 0, |s|);
      TailStartIs(s, |s|, |s|, |s|);
    } else {
      assert s[|a|] == t[0] && s[|a| + |t| - 1] == t[|t| - 1];
      SpaceLengthIs(s, 0, |a|);
      TailStartIs(s, |a|, |s|, |a| + |t|);
      assert s[|a|..|a| + |t|] == t;
    }
  }

  /** Text without white space at either end is its own trim. */
  lemma TrimUnpadded(t: string)
    requires t == "" || (!IsWhitespace(t[0]) && !IsWhitespace(t[|t| - 1]))
    ensures Trim(t) == t
  {
    var lo := SpaceLength(t, 0);
    assert lo == 0;
    assert TailStart(t, 0, |t|) == |t|;
    assert t[0..|t|] == t;
  }

  /** `trim` adds no characters. */
  lemma TrimKeepsOut(s: string, c: char)
    requires c !in s
    ensures c !in Trim(s)
  {
    var lo := SpaceLength(s, 0);
    var r := Trim(s);
    assert forall i :: 0 <= i < |r| ==> r[i] == s[lo + i];
  }

  /** The length of the run of non-white-space characters starting at `from`. */
  function TokenLength(s: string, from: nat): (k: nat)
    requires from <= |s|
    ensures from + k <= |s|
    ensures forall i :: from <= i < from + k ==> !IsWhitespace(s[i])
    ensures from + k == |s| || IsWhitespace(s[from + k])
    decreases |s| - from
  {
    if from < |s| && !IsWhitespace(s[from]) then 1 + TokenLength(s, from + 1) else 0
  }

  predicate IsToken(t: string) {
    t != "" && forall i :: 0 <= i < |t| ==> !IsWhitespace(t[i])
  }

  /** `s.split_whitespace()`: the maximal runs of non-white-space characters, in order. */
  function SplitWhitespace(s: string): (tokens: seq<string>)
    ensures forall i :: 0 <= i < |tokens| ==> IsToken(tokens[i])
    ensures (forall i :: 0 <= i < |s| ==> IsWhitespace(s[i])) <==> tokens == []
    decreases |s|
  {
    if s == "" then []
    else if IsWhitespace(s[0]) then SplitWhitespace(s[1..])
    else
      var k := TokenLength(s, 0);
      [s[..k]] + SplitWhitespace(s[k..])
  }

  /** Position of the first newline in `s`, if any. */
  function NewlineIndex(s: string, from: nat): (r: nat)
    requires from <= |s|
    ensures from <= r <= |s|
    ensures r < |s| ==> s[r] == '\n'
    ensures forall i :: from <= i < r ==> s[i] != '\n'
    decreases |s| - from
  {
    if from == |s| || s[from] == '\n' then from else NewlineIndex(s, from + 1)
  }

  /**
   * `s.lines()`: split after each `\n`, drop the `\n` and a `\r` just before it;
   * a final line ending does not start an extra empty line.
   */
  function Lines(s: string): (lines: seq<string>)
    ensures s == "" <==> lines == []
    ensures forall i :: 0 <= i < |lines| ==> '\n' !in lines[i]
    decreases |s|
  {
    if s == "" then []
    else
      var k := NewlineIndex(s, 0);
      if k == |s| then [s]
      else
        var line := s[..k];
        var stripped := if line != "" && line[|line| - 1] == '\r' then line[..|line| - 1] else line;
        [stripped] + Lines(s[k + 1..])
  }
}
