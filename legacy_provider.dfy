/**
 * The older store (components/providers/playground-provider.tsx): the same
 * reducer shape as the current one, without the manifest, without the result
 * panel flag, and with files that carry no modification stamp. Its deploy and
 * test results are untyped there; here they are the type parameters `D` and `T`.
 */
module LegacyProvider {
  import opened Wrappers
  import Types = PlaygroundTypes
  import Store = PlaygroundStore
  import Seqs

  datatype FileItem = FileItem(id: string, name: string, content: string, fileType: Types.FileType, path: string)

  datatype CompileResult = CompileResult(success: bool, message: string, bytecode: Option<string>, errors: Option<seq<string>>)

  datatype State<D, T> = State(
    files: seq<FileItem>,
    activeFileId: Option<string>,
    isCompiling: bool,
    compileResult: Option<CompileResult>,
    isDeploying: bool,
    deployResult: Option<D>,
    isTesting: bool,
    testResult: Option<T>,
    sidebarOpen: bool,
    activeTab: Types.Tab)

  datatype Action<D, T> =
    | SetFiles(files: seq<FileItem>)
    | AddFile(file: FileItem)
    | UpdateFile(id: string, content: string)
    | DeleteFile(id: string)
    | SetActiveFile(active: Option<string>)
    | SetCompileLoading(compiling: bool)
    | SetCompileResult(compiled: CompileResult)
    | SetDeployLoading(deploying: bool)
    | SetDeployResult(deployed: D)
    | SetTestLoading(testing: bool)
    | SetTestResult(tested: T)
    | ToggleSidebar
    | SetActiveTab(tab: Types.Tab)

  /** `initialState`: no files, nothing active, nothing running, the sidebar open on the files tab. */
  function InitialState<D, T>(): (s: State<D, T>)
    ensures s.files == [] && s.activeFileId.None?
    ensures !s.isCompiling && !s.isDeploying && !s.isTesting
    ensures s.compileResult.None? && s.deployResult.None? && s.testResult.None?
    ensures s.sidebarOpen && s.activeTab == Types.Files
  {
    State([], None, false, None, false, None, false, None, true, Types.Files)
  }

  function UpdateContent(files: seq<FileItem>, id: string, content: string): seq<FileItem> {
    seq(|files|, i requires 0 <= i < |files| => if files[i].id == id then files[i].(content := content) else files[i])
  }

  function WithoutId(files: seq<FileItem>, id: string): seq<FileItem>
    decreases |files|
  {
    if files == [] then []
    else WithoutId(files[..|files| - 1], id) + (if files[|files| - 1].id != id then [files[|files| - 1]] else [])
  }

  /** `playgroundReducer`. */
  function Reduce<D, T>(s: State<D, T>, a: Action<D, T>): State<D, T> {
    match a
    case SetFiles(fs) => s.(files := fs)
    case AddFile(f) => s.(files := s.files + [f])
    case UpdateFile(id, c) => s.(files := UpdateContent(s.files, id, c))
    case DeleteFile(id) =>
      s.(files := WithoutId(s.files, id), activeFileId := if s.activeFileId == Some(id) then None else s.activeFileId)
    case SetActiveFile(id) => s.(activeFileId := id)
    case SetCompileLoading(b) => s.(isCompiling := b)
    case SetCompileResult(r) => s.(compileResult := Some(r), isCompiling := false)
    case SetDeployLoading(b) => s.(isDeploying := b)
    case SetDeployResult(r) => s.(deployResult := Some(r), isDeploying := false)
    case SetTestLoading(b) => s.(isTesting := b)
    case SetTestResult(r) => s.(testResult := Some(r), isTesting := false)
    case ToggleSidebar => s.(sidebarOpen := !s.sidebarOpen)
    case SetActiveTab(t) => s.(activeTab := t)
  }

  /** `ADD_FILE` appends at the end. */
  lemma AddFileAppends<D, T>(s: State<D, T>, f: FileItem)
    ensures var r := Reduce(s, AddFile(f)); |r.files| == |s.files| + 1 && r.files[|s.files|] == f && r.files[..|s.files|] == s.files
  {
  }

  /** `UPDATE_FILE` rewrites the content of the files with that id and nothing else. */
  lemma UpdateFileEffect<D, T>(s: State<D, T>, id: string, c: string)
    ensures var r := Reduce(s, UpdateFile(id, c));
      |r.files| == |s.files| &&
      forall i :: 0 <= i < |s.files| ==>
        (s.files[i].id == id ==> r.files[i] == s.files[i].(content := c)) &&
        (s.files[i].id != id ==> r.files[i] == s.files[i])
  {
  }

  lemma {:induction false} WithoutIdMembers(files: seq<FileItem>, id: string)
    ensures forall f :: f in WithoutId(files, id) <==> f in files && f.id != id
    decreases |files|
  {
    if files != [] {
      var init, last := files[..|files| - 1], files[|files| - 1];
      assert files == init + [last];
      WithoutIdMembers(init, id);
    }
  }

  /** The filter works piecewise: the survivors of `a + b` are those of `a`, then those of `b`, in order. */
  lemma {:induction false} WithoutIdAppend(a: seq<FileItem>, b: seq<FileItem>, id: string)
    ensures WithoutId(a + b, id) == WithoutId(a, id) + WithoutId(b, id)
    decreases |b|
  {
    if b == [] {
      assert a + b == a;
    } else {
      var init, last := b[..|b| - 1], b[|b| - 1];
      assert (a + b)[..|a + b| - 1] == a + init;
      assert (a + b)[|a + b| - 1] == last;
      WithoutIdAppend(a, init, id);
      assert b[..|b| - 1] == init;
    }
  }

  /** Deleting an id no file has leaves the list as it was. */
  lemma {:induction false} WithoutIdAbsent(files: seq<FileItem>, id: string)
    requires forall i :: 0 <= i < |files| ==> files[i].id != id
    ensures WithoutId(files, id) == files
    decreases |files|
  {
    if files != [] {
      var init := files[..|files| - 1];
      WithoutIdAbsent(init, id);
      assert files == init + [files[|files| - 1]];
    }
  }

  /** A single file survives iff its id differs. */
  lemma WithoutIdSingle(f: FileItem, id: string)
    ensures WithoutId([f], id) == if f.id != id then [f] else []
  {
    assert [f][..0] == [];
  }

  /** With distinct ids, deleting the id of file `k` cuts out exactly that file and keeps the rest in order. */
  lemma WithoutIdOne(files: seq<FileItem>, k: nat)
    requires k < |files|
    requires forall i, j :: 0 <= i < j < |files| ==> files[i].id != files[j].id
    ensures WithoutId(files, files[k].id) == files[..k] + files[k + 1..]
  {
    var id := files[k].id;
    var before, after := files[..k], files[k + 1..];
    OthersLackId(files, k, before, after);
    WithoutIdAbsent(before, id);
    WithoutIdAbsent(after, id);
    WithoutIdAround(before, files[k], after);
    Seqs.CutAt(files, k);
  }

  /** Between two lists that keep all their files, a file carrying the deleted id is the one that goes. */
  lemma WithoutIdAround(before: seq<FileItem>, x: FileItem, after: seq<FileItem>)
    requires WithoutId(before, x.id) == before && WithoutId(after, x.id) == after
    ensures WithoutId(before + [x] + after, x.id) == before + after
  {
    var front := before + [x];
    WithoutIdSingle(x, x.id);
    WithoutIdAppend(before, [x], x.id);
    assert WithoutId(front, x.id) == before;
    WithoutIdAppend(front, after, x.id);
  }

  /** With distinct ids, no file before or after `k` carries the id of file `k`. */
  lemma OthersLackId(files: seq<FileItem>, k: nat, before: seq<FileItem>, after: seq<FileItem>)
    requires k < |files| && before == files[..k] && after == files[k + 1..]
    requires forall i, j :: 0 <= i < j < |files| ==> files[i].id != files[j].id
    ensures forall i :: 0 <= i < |before| ==> before[i].id != files[k].id
    ensures forall i :: 0 <= i < |after| ==> after[i].id != files[k].id
  {
    forall i | 0 <= i < |after|
      ensures after[i].id != files[k].id
    {
      assert after[i] == files[k + 1 + i];
    }
  }


  /** `DELETE_FILE`: exactly the files with another id stay, and the active id is cleared iff it was the deleted one. */
  lemma DeleteFileEffect<D, T>(s: State<D, T>, id: string)
    ensures var r := Reduce(s, DeleteFile(id));
      (forall f :: f in r.files <==> f in s.files && f.id != id) &&
      (r.activeFileId.None? <==> s.activeFileId.None? || s.activeFileId == Some(id)) &&
      (r.activeFileId.Some? ==> r.activeFileId == s.activeFileId)
  {
    WithoutIdMembers(s.files, id);
  }

  /** A result landing stores the payload and ends the matching operation. */
  lemma ResultLands<D, T>(s: State<D, T>, a: Action<D, T>)
    ensures a.SetCompileResult? ==> Reduce(s, a).compileResult == Some(a.compiled) && !Reduce(s, a).isCompiling
    ensures a.SetDeployResult? ==> Reduce(s, a).deployResult == Some(a.deployed) && !Reduce(s, a).isDeploying
    ensures a.SetTestResult? ==> Reduce(s, a).testResult == Some(a.tested) && !Reduce(s, a).isTesting
  {
  }

  lemma ToggleInvolutive<D, T>(s: State<D, T>)
    ensures Reduce(Reduce(s, ToggleSidebar), ToggleSidebar) == s
    ensures Reduce(s, ToggleSidebar).sidebarOpen != s.sidebarOpen
  {
  }

  // ---------------------------------------------------------------- against the current store

  /** A current-store file without its stamp. */
  function Strip(f: Types.FileItem): FileItem {
    FileItem(f.id, f.name, f.content, f.fileType, f.path)
  }

  function StripAll(fs: seq<Types.FileItem>): seq<FileItem> {
    seq(|fs|, i requires 0 <= i < |fs| => Strip(fs[i]))
  }

  /** Once stamps are dropped, both stores edit a file the same way. */
  lemma UpdateAgrees(fs: seq<Types.FileItem>, id: string, c: string, at: nat)
    ensures StripAll(Store.UpdateContent(fs, id, c, at)) == UpdateContent(StripAll(fs), id, c)
  {
  }

  /** ... and delete the same files, in the same order. */
  lemma {:induction false} DeleteAgrees(fs: seq<Types.FileItem>, id: string)
    ensures StripAll(Store.WithoutId(fs, id)) == WithoutId(StripAll(fs), id)
    decreases |fs|
  {
    if fs != [] {
      var init, last := fs[..|fs| - 1], fs[|fs| - 1];
      assert StripAll(fs)[..|fs| - 1] == StripAll(init);
      DeleteAgrees(init, id);
      StripAppend(Store.WithoutId(init, id), if last.id != id then [last] else []);
    }
  }

  lemma StripAppend(a: seq<Types.FileItem>, b: seq<Types.FileItem>)
    ensures StripAll(a + b) == StripAll(a) + StripAll(b)
  {
  }
}
