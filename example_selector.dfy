/**
 * The sidebar's example picker (components/sidebar/example-selector.tsx):
 * loading an example replaces the file list with the example's files and
 * selects the first one. The bundled examples are listed by id, title and
 * file name; the Move sources they carry are data the model keeps abstract.
 */
module ExampleSelector {
  import opened Wrappers
  import Decimal
  import opened PlaygroundTypes
  import Store = PlaygroundStore

  datatype ExampleFile = ExampleFile(name: string, content: string)

  datatype Example = Example(id: string, title: string, files: seq<ExampleFile>)

  /** The three bundled examples, each with its one Move file, whose text is `sources[k]`. */
  function Bundled(sources: seq<string>): (examples: seq<Example>)
    requires |sources| == 3
    ensures |examples| == 3
    ensures forall k :: 0 <= k < 3 ==> |examples[k].files| == 1 && examples[k].files[0].content == sources[k]
  {
    [ Example("hello-world", "Hello World", [ExampleFile("hello_world.move", sources[0])]),
      Example("simple-nft", "Simple NFT", [ExampleFile("simple_nft.move", sources[1])]),
      Example("counter", "Counter Contract", [ExampleFile("counter.move", sources[2])]) ]
  }

  /** The bundled examples have pairwise different ids. */
  lemma BundledIdsDistinct(sources: seq<string>)
    requires |sources| == 3
    ensures forall k, l :: 0 <= k < l < 3 ==> Bundled(sources)[k].id != Bundled(sources)[l].id
  {
    var es := Bundled(sources);
    assert es[0].id[0] == 'h' && es[1].id[0] == 's' && es[2].id[0] == 'c';
  }

  /** The id of the `index`-th file loaded from the example `exampleId`. */
  function LoadedId(exampleId: string, index: nat): string {
    "example-" + exampleId + "-" + Decimal.Show(index)
  }

  /** Splitting at the last dash: when neither tail has a dash, equal strings have equal heads and tails. */
  lemma LastDash(x: string, d: string, y: string, e: string)
    requires '-' !in d && '-' !in e
    requires x + "-" + d == y + "-" + e
    ensures x == y && d == e
  {
    var s := x + "-" + d;
    assert s[|x|] == '-';
    assert s[|y|] == '-';
    assert forall k :: |x| + 1 <= k < |s| ==> s[k] == d[k - |x| - 1];
    assert forall k :: |y| + 1 <= k < |s| ==> s[k] == e[k - |y| - 1];
    assert |x| == |y|;
    assert x == s[..|x|];
    assert y == s[..|y|];
    assert d == s[|x| + 1..];
    assert e == s[|y| + 1..];
  }

  /** Different (example, index) pairs give different ids. */
  lemma LoadedIdInjective(a: string, i: nat, b: string, j: nat)
    requires LoadedId(a, i) == LoadedId(b, j)
    ensures a == b && i == j
  {
    var di, dj := Decimal.Show(i), Decimal.Show(j);
    assert forall k :: 0 <= k < |di| ==> di[k] != '-';
    assert forall k :: 0 <= k < |dj| ==> dj[k] != '-';
    LastDash("example-" + a, di, "example-" + b, dj);
    assert a == ("example-" + a)[8..];
    assert b == ("example-" + b)[8..];
    Decimal.ShowInjective(i, j);
  }

  /** The loaded files: one per example file, in order, each a Move file named and placed by the example's file name. */
  function LoadedFiles(e: Example, stamp: nat): (files: seq<FileItem>)
    ensures |files| == |e.files|
    ensures forall i :: 0 <= i < |files| ==>
      files[i].id == LoadedId(e.id, i) && files[i].name == e.files[i].name && files[i].path == e.files[i].name &&
      files[i].content == e.files[i].content && files[i].fileType == Move && files[i].lastModified == stamp
  {
    seq(|e.files|, i requires 0 <= i < |e.files| =>
      FileItem(LoadedId(e.id, i), e.files[i].name, e.files[i].content, Move, e.files[i].name, stamp))
  }

  /** Within one load no two files share an id. */
  lemma LoadedIdsDistinct(e: Example, stamp: nat)
    ensures forall i, j :: 0 <= i < j < |LoadedFiles(e, stamp)| ==> LoadedFiles(e, stamp)[i].id != LoadedFiles(e, stamp)[j].id
  {
    var files := LoadedFiles(e, stamp);
    forall i, j | 0 <= i < j < |files| ensures files[i].id != files[j].id {
      if files[i].id == files[j].id {
        LoadedIdInjective(e.id, i, e.id, j);
      }
    }
  }

  /** Files loaded from examples with different ids never share an id. */
  lemma LoadsNeverCollide(e: Example, f: Example, stamp: nat, stamp': nat)
    requires e.id != f.id
    ensures forall i, j :: 0 <= i < |LoadedFiles(e, stamp)| && 0 <= j < |LoadedFiles(f, stamp')| ==>
      LoadedFiles(e, stamp)[i].id != LoadedFiles(f, stamp')[j].id
  {
    var a, b := LoadedFiles(e, stamp), LoadedFiles(f, stamp');
    forall i, j | 0 <= i < |a| && 0 <= j < |b| ensures a[i].id != b[j].id {
      if a[i].id == b[j].id {
        LoadedIdInjective(e.id, i, f.id, j);
      }
    }
  }

  /**
   * `loadExample`: the file list is replaced by the example's files; when
   * there is at least one, the first becomes the active file, and otherwise
   * the selection is left as it was. Nothing else in the store changes.
   */
  method LoadExample(s: Store.State, e: Example, stamp: nat) returns (t: Store.State)
    ensures t.files == LoadedFiles(e, stamp)
    ensures |e.files| > 0 ==> t.activeFileId == Some(LoadedId(e.id, 0))
    ensures |e.files| == 0 ==> t.activeFileId == s.activeFileId
    ensures t == s.(files := t.files, activeFileId := t.activeFileId)
  {
    var files := LoadedFiles(e, stamp);
    t := Store.Reduce(s, Store.SetFiles(files));
    if |files| > 0 {
      t := Store.Reduce(t, Store.SetActiveFile(Some(files[0].id)));
    }
  }
}
