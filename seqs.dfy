/** Generic sequence helpers shared by the modules of this model. */
module Seqs {

  /** Cutting out position `k` before or after dropping the last element, when `k` is not the last position. */
  lemma CutBeforeLast<T>(s: seq<T>, k: nat)
    requires k + 1 < |s|
    ensures var init := s[..|s| - 1]; init[..k] + init[k + 1..] + [s[|s| - 1]] == s[..k] + s[k + 1..]
  {
    var init := s[..|s| - 1];
    assert init[..k] == s[..k];
    assert init[k + 1..] + [s[|s| - 1]] == s[k + 1..];
  }

  /** Cutting a sequence at two points and gluing the three pieces back gives it again. */
  lemma SplitThree<T>(t: seq<T>, i: nat, j: nat)
    requires i <= j <= |t|
    ensures t == t[..i] + t[i..j] + t[j..]
  {
    assert t[..j] == t[..i] + t[i..j];
    assert t == t[..j] + t[j..];
  }

  /** A sequence is what comes before position `k`, the element at `k`, and what follows. */
  lemma CutAt<T>(s: seq<T>, k: nat)
    requires k < |s|
    ensures s[..k] + [s[k]] + s[k + 1..] == s
  {
    assert s[..k + 1] == s[..k] + [s[k]];
    assert s == s[..k + 1] + s[k + 1..];
  }

  /** `xs.flatMap(f)`. */
  function Collect<T, U>(xs: seq<T>, f: T -> seq<U>): seq<U>
    decreases |xs|
  {
    if xs == [] then [] else Collect(xs[..|xs| - 1], f) + f(xs[|xs| - 1])
  }

  lemma CollectSnoc<T, U>(xs: seq<T>, x: T, f: T -> seq<U>)
    ensures Collect(xs + [x], f) == Collect(xs, f) + f(x)
  {
    assert (xs + [x])[..|xs|] == xs;
  }

  lemma {:induction false} CollectAppend<T, U>(a: seq<T>, b: seq<T>, f: T -> seq<U>)
    ensures Collect(a + b, f) == Collect(a, f) + Collect(b, f)
    decreases |b|
  {
    if b == [] {
      assert a + b == a;
    } else {
      var init, last := b[..|b| - 1], b[|b| - 1];
      assert a + b == (a + init) + [last];
      assert init + [last] == b;
      CollectSnoc(a + init, last, f);
      CollectSnoc(init, last, f);
      CollectAppend(a, init, f);
    }
  }

  /** The first element's contribution comes first. */
  lemma CollectCons<T, U>(x: T, xs: seq<T>, f: T -> seq<U>)
    ensures Collect([x] + xs, f) == f(x) + Collect(xs, f)
  {
    CollectAppend([x], xs, f);
    CollectSnoc([], x, f);
    assert [] + [x] == [x];
  }

  /** An element contributing nothing can be dropped. */
  lemma CollectSkip<T, U>(a: seq<T>, x: T, b: seq<T>, f: T -> seq<U>)
    requires f(x) == []
    ensures Collect(a + [x] + b, f) == Collect(a + b, f)
  {
    CollectAppend(a + [x], b, f);
    CollectSnoc(a, x, f);
    CollectAppend(a, b, f);
  }

  lemma CollectSix<T, U>(xs: seq<T>, f: T -> seq<U>)
    requires |xs| == 6
    ensures Collect(xs, f) == f(xs[0]) + f(xs[1]) + f(xs[2]) + f(xs[3]) + f(xs[4]) + f(xs[5])
  {
    assert xs == xs[..5] + [xs[5]];
    assert xs[..5] == xs[..4] + [xs[4]];
    assert xs[..4] == xs[..3] + [xs[3]];
    assert xs[..3] == xs[..2] + [xs[2]];
    assert xs[..2] == xs[..1] + [xs[1]];
    assert xs[..1] == [] + [xs[0]];
    CollectSnoc([], xs[0], f);
    CollectSnoc(xs[..1], xs[1], f);
    CollectSnoc(xs[..2], xs[2], f);
    CollectSnoc(xs[..3], xs[3], f);
    CollectSnoc(xs[..4], xs[4], f);
    CollectSnoc(xs[..5], xs[5], f);
  }

  lemma CollectThree<T, U>(xs: seq<T>, f: T -> seq<U>)
    requires |xs| == 3
    ensures Collect(xs, f) == f(xs[0]) + f(xs[1]) + f(xs[2])
  {
    assert xs == xs[..2] + [xs[2]];
    assert xs[..2] == xs[..1] + [xs[1]];
    assert xs[..1] == [] + [xs[0]];
    CollectSnoc([], xs[0], f);
    CollectSnoc(xs[..1], xs[1], f);
    CollectSnoc(xs[..2], xs[2], f);
  }

  /** Every element of the flat map comes from some element's contribution. */
  lemma {:induction false} CollectSource<T, U>(xs: seq<T>, f: T -> seq<U>, y: U) returns (i: nat)
    requires y in Collect(xs, f)
    ensures i < |xs| && y in f(xs[i])
    decreases |xs|
  {
    var init, last := xs[..|xs| - 1], xs[|xs| - 1];
    if y in f(last) {
      i := |xs| - 1;
    } else {
      i := CollectSource(init, f, y);
      assert xs[i] == init[i];
    }
  }

  /** A flat map whose contributions are given position by position. */
  lemma {:induction false} CollectBy<T, U>(xs: seq<T>, f: T -> seq<U>, g: nat -> seq<U>)
    requires forall i :: 0 <= i < |xs| ==> f(xs[i]) == g(i)
    ensures Collect(xs, f) == Spread(g, |xs|)
    decreases |xs|
  {
    if xs != [] {
      var init := xs[..|xs| - 1];
      assert forall i :: 0 <= i < |init| ==> init[i] == xs[i];
      CollectBy(init, f, g);
    }
  }

  /** `g(0) + g(1) + ... + g(n - 1)`. */
  function Spread<U>(g: nat -> seq<U>, n: nat): seq<U> {
    if n == 0 then [] else Spread(g, n - 1) + g(n - 1)
  }

  /** The position of the first element from `from` on that satisfies `p`; `|xs|` when there is none (`find`). */
  function FirstIndex<T>(xs: seq<T>, p: T -> bool, from: nat): (k: nat)
    requires from <= |xs|
    ensures from <= k <= |xs|
    ensures forall j :: from <= j < k ==> !p(xs[j])
    ensures k < |xs| ==> p(xs[k])
    decreases |xs| - from
  {
    if from == |xs| || p(xs[from]) then from else FirstIndex(xs, p, from + 1)
  }

  /** An element satisfying `p` with none before it is the one found. */
  lemma {:induction false} FirstIndexIs<T>(xs: seq<T>, p: T -> bool, from: nat, k: nat)
    requires from <= k < |xs| && p(xs[k])
    requires forall j :: from <= j < k ==> !p(xs[j])
    ensures FirstIndex(xs, p, from) == k
    decreases k - from
  {
    if from < k {
      FirstIndexIs(xs, p, from + 1, k);
    }
  }
}
