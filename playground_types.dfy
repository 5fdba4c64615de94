/**
 * The records the Next.js front end keeps in its store and exchanges with the
 * compiler service (types/index.ts, and the fields lib/hooks/use-playground-actions.tsx
 * reads and writes). A `Date` is kept abstract as a number the caller supplies.
 */
module PlaygroundTypes {
  import opened Wrappers

  datatype FileType = Move | Toml | Md

  datatype FileItem = FileItem(id: string, name: string, content: string, fileType: FileType, path: string, lastModified: nat)

  datatype CompileResponse = CompileResponse(
    success: bool,
    bytecodeBase64: seq<string>,
    moduleNames: seq<string>,
    bytecodeSize: seq<nat>,
    compileTimeMs: nat,
    errorMessage: Option<string>,
    warnings: seq<string>,
    bytecodePath: Option<string>)

  datatype TestStatus = Passed | Failed | Skipped

  datatype TestCase = TestCase(name: string, status: TestStatus, duration: string, error: Option<string>)

  datatype TestResponse = TestResponse(
    success: bool,
    testsRun: nat,
    testsPassed: nat,
    testsFailed: nat,
    details: seq<TestCase>,
    output: Option<string>)

  /** The deploy reply as the hook uses it: the server's fields plus the two the hook may scrape into. */
  datatype DeployResponse = DeployResponse(
    success: bool,
    output: Option<string>,
    transactionDigest: Option<string>,
    packageId: Option<string>,
    error: Option<string>)

  datatype Tab = Files | Examples | ConfigTab
}
