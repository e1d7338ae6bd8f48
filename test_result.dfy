/** AxoCover's own record of one test run (`AxoCover.Models.Data.TestResult`).
    The test-method identity, the elapsed time and the parsed stack frames are
    only carried, so they are type parameters. */
module Data {
  import opened Wrappers

  /** The three states AxoCover distinguishes for a finished test. */
  datatype TestState = Passed | Failed | Inconclusive

  /** The record's seven properties; `None` is a `null` string. */
  datatype TestResult<Method, Duration, StackItem> = TestResult(
    testMethod: Method,
    duration: Duration,
    outcome: TestState,
    stdOut: Option<string>,
    stdErr: Option<string>,
    errorMessage: Option<string>,
    stackTrace: seq<StackItem>)
}
