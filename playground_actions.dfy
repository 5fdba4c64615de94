/**
 * The compile, test and deploy actions (lib/hooks/use-playground-actions.tsx).
 * Each action is a guarded sequence of dispatches to the store; the request it
 * sends is logged, and the service's answer, a value or a thrown error, is a
 * parameter. The toasts are presentation and are not modelled.
 */
module PlaygroundActions {
  import opened Wrappers
  import opened JsText
  import opened PlaygroundTypes
  import opened PlaygroundStore
  import Seqs

  /** What the hook sends to the service. */
  datatype Request =
    | Compile(sourceCode: string, fileName: string, addressesToml: string)
    | Test(command: string)
    | Deploy(command: string)

  /** What the awaited service call gives back: a reply, or a thrown value (`Some(message)` for an `Error`). */
  datatype Reply<R> = Returned(value: R) | Threw(error: Option<string>)

  /** `error instanceof Error ? error.message : "Unknown error"`. */
  function ErrorText(e: Option<string>): string {
    e.GetOr("Unknown error")
  }

  /** The test of `find`: the file's id is exactly `id`. */
  function WithId(id: string): FileItem -> bool {
    (f: FileItem) => f.id == id
  }

  /** `state.files.find((f) => f.id === state.activeFileId)`: a null active id finds nothing. */
  function ActiveFile(s: State): (f: Option<FileItem>)
    ensures s.activeFileId.None? ==> f.None?
    ensures f.Some? ==> f.value in s.files && Some(f.value.id) == s.activeFileId
    ensures f.None? && s.activeFileId.Some? ==> forall g :: g in s.files ==> g.id != s.activeFileId.value
  {
    match s.activeFileId
    case None => None
    case Some(id) =>
      var k := Seqs.FirstIndex(s.files, WithId(id), 0);
      if k < |s.files| then Some(s.files[k])
      else
        assert forall g :: g in s.files ==> g.id != id by {
          forall g | g in s.files
            ensures g.id != id
          {
            var j :| 0 <= j < |s.files| && s.files[j] == g;
          }
        }
        None
  }

  /** The guard of `runTests` and `deployContract`: a successful compile that left a non-empty `bytecode_path`. */
  predicate HasBytecode(cr: Option<CompileResponse>) {
    cr.Some? && cr.value.success && cr.value.bytecodePath.Some? && cr.value.bytecodePath.value != ""
  }

  function TestCommand(path: string): string {
    "sui move test --path " + path
  }

  function DeployCommand(path: string): string {
    "sui client publish " + path + " --gas-budget 100000000"
  }

  /** The record stored when the compile call throws. */
  function CompileFailure(message: string): CompileResponse {
    CompileResponse(false, [], [], [], 0, Some(message), [], None)
  }

  /** The record stored when the test call throws. */
  function TestFailure(message: string): TestResponse {
    TestResponse(false, 0, 0, 0, [], Some(message))
  }

  /** The record stored when the deploy call throws: no output, no digest, no package. */
  function DeployFailure(message: string): DeployResponse {
    DeployResponse(false, None, None, None, Some(message))
  }

  // ---------------------------------------------------------------- scraping the deploy output

  const DigestLabel := "Transaction Digest: "
  const PackageLabel := "Package ID: "

  /** `marker([^\s\n]+)` matches at `i`: the marker occurs there and a non-space character follows it. */
  predicate MatchesAt(s: string, marker: string, i: nat) {
    OccursAt(s, marker, i) && i + |marker| < |s| && !IsSpace(s[i + |marker|])
  }

  /** The pattern matches at `i` and nowhere before it. */
  predicate LeftmostMatch(s: string, marker: string, i: nat) {
    MatchesAt(s, marker, i) && forall k :: 0 <= k < i ==> !MatchesAt(s, marker, k)
  }

  /** The leftmost position at or after `from` where the pattern matches. */
  function LabelMatch(s: string, marker: string, from: nat): (r: Option<nat>)
    requires from <= |s|
    ensures r.Some? ==> from <= r.value && MatchesAt(s, marker, r.value)
    ensures forall j :: from <= j <= |s| && (r.None? || j < r.value) ==> !MatchesAt(s, marker, j)
    decreases |s| - from
  {
    if MatchesAt(s, marker, from) then Some(from)
    else if from == |s| then None
    else LabelMatch(s, marker, from + 1)
  }

  /**
   * `s.match(/marker([^\s\n]+)/)?.[1]`: the maximal run of non-space
   * characters after the leftmost match of the marker.
   */
  function Capture(s: string, marker: string): (r: Option<string>)
    ensures r.None? <==> forall i :: 0 <= i <= |s| ==> !MatchesAt(s, marker, i)
    ensures r.Some? ==>
      var i := LabelMatch(s, marker, 0).value;
      var j := i + |marker|;
      LeftmostMatch(s, marker, i) && MaximalRun(s, j, r.value)
  {
    match LabelMatch(s, marker, 0)
    case None => None
    case Some(i) =>
      Some(NonSpaceRun(s, i + |marker|))
  }

  /** `run` is a non-empty run of non-space characters of `s` starting at `j`, and space or the end follows it. */
  predicate MaximalRun(s: string, j: nat, run: string) {
    |run| > 0 && j + |run| <= |s| && run == s[j..j + |run|] &&
    (forall c :: c in run ==> !IsSpace(c)) &&
    (j + |run| == |s| || IsSpace(s[j + |run|]))
  }

  /** `[^\s\n]+` at `j`: the maximal run of non-space characters starting there, which is not empty. */
  function NonSpaceRun(s: string, j: nat): (run: string)
    requires j < |s| && !IsSpace(s[j])
    ensures MaximalRun(s, j, run)
  {
    var n := RunLength(s, j, NotSpace);
    assert n > 0 by {
      assert InClass(s[j], NotSpace);
    }
    s[j..j + n]
  }

  /** Scraping happens only on a successful deploy with a non-empty output. */
  predicate Scrapes(result: DeployResponse) {
    result.success && result.output.Some? && result.output.value != ""
  }

  /**
   * The ids a scraped answer carries: the digest after `Transaction Digest: `
   * when there is one, and the package id after `Package ID: `, else from the
   * `Created Objects` table, else the answer's own value.
   */
  predicate ScrapedIds(result: DeployResponse, created: string -> Option<string>, processed: DeployResponse)
    requires Scrapes(result)
  {
    var out := result.output.value;
    var d, p := Capture(out, DigestLabel), Capture(out, PackageLabel);
    processed.transactionDigest == (if d.Some? then d else result.transactionDigest) &&
    processed.packageId == (if p.Some? then p else if created(out).Some? then created(out) else result.packageId)
  }

  /**
   * The copy-and-patch of lines 156-174. `created` stands for the `Created
   * Objects` table regex, consulted only when no `Package ID: ` match exists.
   */
  method ScrapeDeploy(result: DeployResponse, created: string -> Option<string>) returns (processed: DeployResponse)
    ensures processed.success == result.success && processed.output == result.output && processed.error == result.error
    ensures !Scrapes(result) ==> processed == result
    ensures Scrapes(result) ==> ScrapedIds(result, created, processed)
  {
    processed := result;
    if result.success && result.output.Some? && result.output.value != "" {
      var out := result.output.value;
      var digest := Capture(out, DigestLabel);
      if digest.Some? {
        processed := processed.(transactionDigest := digest);
      }
      var package := Capture(out, PackageLabel);
      if package.Some? {
        processed := processed.(packageId := package);
      } else {
        var fromTable := created(out);
        if fromTable.Some? {
          processed := processed.(packageId := fromTable);
        }
      }
    }
  }

  // ---------------------------------------------------------------- the hook

  class Playground {
    /** The store's state and everything dispatched to it. */
    var state: State
    var dispatched: seq<Action>
    /** Every request sent to the service. */
    var sent: seq<Request>

    constructor (created: nat)
      ensures state == InitialState(created) && dispatched == [] && sent == []
    {
      state := InitialState(created);
      dispatched := [];
      sent := [];
    }

    method Dispatch(a: Action)
      modifies this
      ensures state == Reduce(old(state), a)
      ensures dispatched == old(dispatched) + [a] && sent == old(sent)
    {
      state := Reduce(state, a);
      dispatched := dispatched + [a];
    }

    /**
     * `compileCode`: without an active Move file nothing is dispatched and
     * nothing sent; otherwise the active file's content and name go out with
     * the stored manifest, and the answer, or the failure record for a thrown
     * error, lands as the compile result.
     */
    method CompileCode(reply: Reply<CompileResponse>)
      modifies this
      ensures var f := ActiveFile(old(state));
        if f.None? || f.value.fileType != Move then
          state == old(state) && dispatched == old(dispatched) && sent == old(sent)
        else
          var r := if reply.Returned? then reply.value else CompileFailure(ErrorText(reply.error));
          sent == old(sent) + [Compile(f.value.content, f.value.name, old(state).config)] &&
          dispatched == old(dispatched) + [SetCompileLoading(true), SetCompileResult(r)] &&
          state == old(state).(isCompiling := false, compileResult := Some(r))
    {
      var f := ActiveFile(state);
      if f.None? {
        return;
      }
      if f.value.fileType != Move {
        return;
      }
      Dispatch(SetCompileLoading(true));
      sent := sent + [Compile(f.value.content, f.value.name, state.config)];
      match reply
      case Returned(r) =>
        Dispatch(SetCompileResult(r));
      case Threw(e) =>
        Dispatch(SetCompileResult(CompileFailure(ErrorText(e))));
    }

    /** `runTests`: only after a compile that left bytecode, and then with exactly `sui move test --path <p>`. */
    method RunTests(reply: Reply<TestResponse>)
      modifies this
      ensures var cr := old(state).compileResult;
        if !HasBytecode(cr) then
          state == old(state) && dispatched == old(dispatched) && sent == old(sent)
        else
          var r := if reply.Returned? then reply.value else TestFailure(ErrorText(reply.error));
          sent == old(sent) + [Test(TestCommand(cr.value.bytecodePath.value))] &&
          dispatched == old(dispatched) + [SetTestLoading(true), SetTestResult(r)] &&
          state == old(state).(isTesting := false, testResult := Some(r))
    {
      if !HasBytecode(state.compileResult) {
        return;
      }
      var path := state.compileResult.value.bytecodePath.value;
      Dispatch(SetTestLoading(true));
      sent := sent + [Test(TestCommand(path))];
      match reply
      case Returned(r) =>
        Dispatch(SetTestResult(r));
      case Threw(e) =>
        Dispatch(SetTestResult(TestFailure(ErrorText(e))));
    }

    /**
     * `deployContract`: the same guard, the publish command, and a returned
     * answer scraped for its digest and package id before it is stored.
     */
    method DeployContract(reply: Reply<DeployResponse>, created: string -> Option<string>)
      modifies this
      ensures var cr := old(state).compileResult;
        if !HasBytecode(cr) then
          state == old(state) && dispatched == old(dispatched) && sent == old(sent)
        else
          sent == old(sent) + [Deploy(DeployCommand(cr.value.bytecodePath.value))] &&
          |dispatched| == |old(dispatched)| + 2 && dispatched[..|old(dispatched)|] == old(dispatched) &&
          dispatched[|old(dispatched)|] == SetDeployLoading(true) &&
          dispatched[|old(dispatched)| + 1].SetDeployResult? &&
          var r := dispatched[|old(dispatched)| + 1].deployed;
          state == old(state).(isDeploying := false, deployResult := Some(r)) &&
          (reply.Threw? ==> r == DeployFailure(ErrorText(reply.error))) &&
          (reply.Returned? ==> r.success == reply.value.success && r.output == reply.value.output && r.error == reply.value.error) &&
          (reply.Returned? && !Scrapes(reply.value) ==> r == reply.value) &&
          (reply.Returned? && Scrapes(reply.value) ==> ScrapedIds(reply.value, created, r))
    {
      if !HasBytecode(state.compileResult) {
        return;
      }
      var path := state.compileResult.value.bytecodePath.value;
      Dispatch(SetDeployLoading(true));
      sent := sent + [Deploy(DeployCommand(path))];
      match reply
      case Returned(r) =>
        var processed := ScrapeDeploy(r, created);
        Dispatch(SetDeployResult(processed));
      case Threw(e) =>
        Dispatch(SetDeployResult(DeployFailure(ErrorText(e))));
    }
  }
}
