/** `AdapterExtensions`: where AxoCover finds the test-platform and test-adapter
    assemblies for each adapter mode, and how it turns a test runner's result into
    its own `Data.TestResult`.

    The IDE's global `DTE` lookup becomes the parameter `host` (the path of the
    running IDE executable, or `None` when there is no IDE), `File.Exists` becomes
    the parameter `fileExists`, `StackItem.FromStackTrace` becomes the parameter
    `fromStackTrace`, and the recursive `*.TestAdapter.dll` scan of the package root
    becomes the parameter `packageAdapters` (its result). */
module AdapterExtensions {
  import opened Wrappers
  import Data
  import Text
  import Paths
  import Seqs

  /** The adapter mode; `OtherMode` is any other value the C# enum can hold. */
  datatype TestAdapterMode = Integrated | Standard | OtherMode(code: int)

  /** The severity of a runner message; `OtherLevel` is any other enum value. */
  datatype TestMessageLevel = Informational | Warning | Error | OtherLevel(code: int)

  /** The runner's outcome of a test; `OtherOutcome` stands for every value the
      translation does not single out (named members and out-of-range values alike). */
  datatype TestOutcome = Passed | Failed | OtherOutcome(code: int)

  /** The two exceptions the path lookups throw. */
  datatype Exception = InvalidOperationException | NotImplementedException

  /** One message the runner captured: a category such as "StdOutMsgs" and a text;
      either may be `null`. */
  datatype TestResultMessage = TestResultMessage(category: Option<string>, text: Option<string>)

  /** The runner's result of one test, as the translation reads it. */
  datatype RawTestResult<Duration> = RawTestResult(
    outcome: TestOutcome,
    duration: Duration,
    messages: seq<TestResultMessage>,
    errorMessage: Option<string>,
    errorStackTrace: Option<string>)

  // ---------------------------------------------------------------------------
  // Outcome and label mapping

  /** `ToTestState`: failed and passed keep their meaning, every other outcome is
      inconclusive. */
  function ToTestState(testOutcome: TestOutcome): (r: Data.TestState)
    ensures r == Data.Failed <==> testOutcome == Failed
    ensures r == Data.Passed <==> testOutcome == Passed
    ensures r == Data.Inconclusive <==> testOutcome.OtherOutcome?
  {
    match testOutcome
    case Failed => Data.Failed
    case Passed => Data.Passed
    case OtherOutcome(_) => Data.Inconclusive
  }

  /** `GetShortName`: a four-letter tag for every level, "INFO", "WARN" and "FAIL"
      for the three named levels and "MISC" exactly for the levels it does not name. */
  function GetShortName(testMessageLevel: TestMessageLevel): (r: string)
    ensures |r| == 4
    ensures r in {"INFO", "WARN", "FAIL", "MISC"}
    ensures testMessageLevel == Informational ==> r == "INFO"
    ensures testMessageLevel == Warning ==> r == "WARN"
    ensures testMessageLevel == Error ==> r == "FAIL"
    ensures r == "MISC" <==> testMessageLevel.OtherLevel?
  {
    match testMessageLevel
    case Informational => "INFO"
    case Warning => "WARN"
    case Error => "FAIL"
    case OtherLevel(_) => "MISC"
  }

  /** The named levels get pairwise different tags. */
  lemma ShortNamesDistinct(a: TestMessageLevel, b: TestMessageLevel)
    requires !a.OtherLevel? && !b.OtherLevel? && a != b
    ensures GetShortName(a) != GetShortName(b)
  {
  }

  // ---------------------------------------------------------------------------
  // Output-stream demultiplexing

  /** The text `StringBuilder.Append` adds for a message: a `null` text adds nothing. */
  function TextOf(message: TestResultMessage): string {
    message.text.GetOr("")
  }

  /** The filter `m.Category == categoryName`; a `null` category never matches. */
  predicate InCategory(message: TestResultMessage, categoryName: string) {
    message.category == Some(categoryName)
  }

  /** The messages of one category, in their order. */
  function Matching(messages: seq<TestResultMessage>, categoryName: string): seq<TestResultMessage> {
    Seqs.Where(messages, m => InCategory(m, categoryName))
  }

  /** The texts of `messages` one after the other. */
  function JoinTexts(messages: seq<TestResultMessage>): string
    decreases |messages|
  {
    if messages == [] then "" else TextOf(messages[0]) + JoinTexts(messages[1..])
  }

  /** The texts of exactly the messages of one category, concatenated in order. */
  function CategoryText(messages: seq<TestResultMessage>, categoryName: string): string {
    JoinTexts(Matching(messages, categoryName))
  }

  lemma {:induction false} JoinTextsAppend(a: seq<TestResultMessage>, b: seq<TestResultMessage>)
    ensures JoinTexts(a + b) == JoinTexts(a) + JoinTexts(b)
    decreases |a|
  {
    if a == [] {
      assert a + b == b;
    } else {
      assert (a + b)[0] == a[0];
      assert (a + b)[1..] == a[1..] + b;
      JoinTextsAppend(a[1..], b);
    }
  }

  lemma {:induction false} JoinTextsEmpty(ms: seq<TestResultMessage>)
    ensures JoinTexts(ms) == "" <==> forall i :: 0 <= i < |ms| ==> TextOf(ms[i]) == ""
    decreases |ms|
  {
    if ms != [] {
      JoinTextsEmpty(ms[1..]);
      assert forall i :: 1 <= i < |ms| ==> ms[i] == ms[1..][i - 1];
    }
  }

  /** Category texts of consecutive message lists follow each other. */
  lemma CategoryTextAppend(a: seq<TestResultMessage>, b: seq<TestResultMessage>, categoryName: string)
    ensures CategoryText(a + b, categoryName) == CategoryText(a, categoryName) + CategoryText(b, categoryName)
  {
    Seqs.WhereAppend(a, b, m => InCategory(m, categoryName));
    JoinTextsAppend(Matching(a, categoryName), Matching(b, categoryName));
  }

  /** A single message contributes its text exactly when it is of the category. */
  lemma CategoryTextSingle(m: TestResultMessage, categoryName: string)
    ensures CategoryText([m], categoryName) == if InCategory(m, categoryName) then TextOf(m) else ""
  {
    assert JoinTexts([m]) == TextOf(m) by { assert [m][1..] == []; }
  }

  /** Appending one message appends its text exactly when it is of the category. */
  lemma CategoryTextSnoc(messages: seq<TestResultMessage>, m: TestResultMessage, categoryName: string)
    ensures CategoryText(messages + [m], categoryName)
      == CategoryText(messages, categoryName) + if InCategory(m, categoryName) then TextOf(m) else ""
  {
    CategoryTextAppend(messages, [m], categoryName);
    CategoryTextSingle(m, categoryName);
  }

  /** A message of another category, wherever it stands, does not change the text. */
  lemma OtherCategoryIgnored(before: seq<TestResultMessage>, m: TestResultMessage,
                             after: seq<TestResultMessage>, categoryName: string)
    requires !InCategory(m, categoryName)
    ensures CategoryText(before + [m] + after, categoryName) == CategoryText(before + after, categoryName)
  {
    CategoryTextAppend(before + [m], after, categoryName);
    CategoryTextAppend(before, [m], categoryName);
    CategoryTextAppend(before, after, categoryName);
    CategoryTextSingle(m, categoryName);
  }

  /** The category text is empty exactly when every message of the category has an
      empty (or `null`) text, including when there is no such message at all. */
  lemma CategoryTextEmpty(messages: seq<TestResultMessage>, categoryName: string)
    ensures CategoryText(messages, categoryName) == "" <==>
      forall i :: 0 <= i < |messages| && InCategory(messages[i], categoryName) ==> TextOf(messages[i]) == ""
  {
    var ms := Matching(messages, categoryName);
    JoinTextsEmpty(ms);
    forall i | 0 <= i < |messages| && InCategory(messages[i], categoryName)
      ensures messages[i] in ms
    {
    }
    forall k | 0 <= k < |ms|
      ensures exists i :: 0 <= i < |messages| && messages[i] == ms[k] && InCategory(messages[i], categoryName)
    {
      assert ms[k] in messages;
    }
  }

  /** What `ConcatenateMessagesInCategory` returns: the category text, or `null`
      when it is empty. */
  function CategoryOutput(messages: seq<TestResultMessage>, categoryName: string): (r: Option<string>)
    ensures r.None? <==>
      forall i :: 0 <= i < |messages| && InCategory(messages[i], categoryName) ==> TextOf(messages[i]) == ""
    ensures r.Some? ==> r.value == CategoryText(messages, categoryName) && r.value != ""
  {
    CategoryTextEmpty(messages, categoryName);
    var text := CategoryText(messages, categoryName);
    if |text| > 0 then Some(text) else None
  }

  /** `ConcatenateMessagesInCategory`: appends the text of every message of the
      category to a buffer, in order, and returns `null` for an empty buffer. */
  method ConcatenateMessagesInCategory(messages: seq<TestResultMessage>, categoryName: string)
    returns (r: Option<string>)
    ensures r == CategoryOutput(messages, categoryName)
  {
    var sb := "";
    var i := 0;
    assert messages[..0] == [];
    while i < |messages|
      invariant 0 <= i <= |messages|
      invariant sb == CategoryText(messages[..i], categoryName)
    {
      var message := messages[i];
      assert messages[..i + 1] == messages[..i] + [message];
      CategoryTextSnoc(messages[..i], message, categoryName);
      if InCategory(message, categoryName) {
        sb := sb + TextOf(message);
      }
      i := i + 1;
    }
    assert messages[..i] == messages;
    assert sb == CategoryText(messages, categoryName);
    r := if |sb| > 0 then Some(sb) else None;
  }

  // ---------------------------------------------------------------------------
  // Error-message shortening: the regex `^Test method [^ ]* threw exception:(?<exception>.*)$`
  // with `Singleline`, so that `.` also matches line breaks

  const TestMethodPrefix: string := "Test method "
  const ThrewException: string := " threw exception:"

  /** `t` would match `[^ ]*`. */
  predicate NoSpace(t: string) {
    forall k :: 0 <= k < |t| ==> t[k] != ' '
  }

  /** The index of the first space in `s` at or after `from`, or `|s|` if none. */
  function FirstSpace(s: string, from: nat): (j: nat)
    requires from <= |s|
    ensures from <= j <= |s|
    ensures forall k :: from <= k < j ==> s[k] != ' '
    ensures j < |s| ==> s[j] == ' '
    decreases |s| - from
  {
    if from == |s| || s[from] == ' ' then from else FirstSpace(s, from + 1)
  }

  /** The regex matches `s` with `[^ ]*` spanning up to index `j`. */
  predicate MatchesAt(s: string, j: int) {
    |TestMethodPrefix| <= j && j + |ThrewException| <= |s| &&
    s[..|TestMethodPrefix|] == TestMethodPrefix &&
    NoSpace(s[|TestMethodPrefix|..j]) &&
    s[j..j + |ThrewException|] == ThrewException
  }

  /** The regex matches `s`. */
  ghost predicate IsWrapped(s: string) {
    exists j :: MatchesAt(s, j)
  }

  /** A match can only span up to the first space after the prefix. */
  lemma MatchAtFirstSpace(s: string, j: int)
    requires MatchesAt(s, j)
    ensures FirstSpace(s, |TestMethodPrefix|) == j
  {
    var n := |TestMethodPrefix|;
    var f := FirstSpace(s, n);
    assert s[j] == ThrewException[0] == ' ';
    assert forall k :: n <= k < j ==> s[k] == s[n..j][k - n];
  }

  /** The `exception` group of a successful match, `None` when the regex does not
      match: it is determined, since `[^ ]*` must stop at the first space. */
  function ExceptionGroup(s: string): (r: Option<string>)
    ensures r.Some? <==> IsWrapped(s)
    ensures forall j :: MatchesAt(s, j) ==> r == Some(s[j + |ThrewException|..])
  {
    var n := |TestMethodPrefix|;
    assert forall j :: MatchesAt(s, j) ==> FirstSpace(s, n) == j by {
      forall j | MatchesAt(s, j) ensures FirstSpace(s, n) == j {
        MatchAtFirstSpace(s, j);
      }
    }
    if |s| < n || s[..n] != TestMethodPrefix then None
    else
      var j := FirstSpace(s, n);
      if j + |ThrewException| <= |s| && s[j..j + |ThrewException|] == ThrewException then
        assert MatchesAt(s, j) by {
          assert forall k :: 0 <= k < j - n ==> s[n..j][k] == s[n + k];
        }
        Some(s[j + |ThrewException|..])
      else None
  }

  /** `GetShortErrorMessage`: a `null` message stays `null`, a message the regex
      matches becomes its trimmed `exception` group, any other is kept as it is. */
  function GetShortErrorMessage(errorMessage: Option<string>): (r: Option<string>)
    ensures r.None? <==> errorMessage.None?
    ensures errorMessage.Some? && !IsWrapped(errorMessage.value) ==> r == errorMessage
    ensures forall j :: errorMessage.Some? && MatchesAt(errorMessage.value, j) ==>
      r == Some(Text.Trim(errorMessage.value[j + |ThrewException|..]))
  {
    match errorMessage
    case None => None
    case Some(message) =>
      match ExceptionGroup(message)
      case Some(group) => Some(Text.Trim(group))
      case None => errorMessage
  }

  /** Unwrapping the runner's boilerplate: the sentence around any space-free
      method name is dropped and the exception text is trimmed. */
  lemma ShortenWrapped(methodName: string, exceptionText: string)
    requires NoSpace(methodName)
    ensures GetShortErrorMessage(Some(TestMethodPrefix + methodName + ThrewException + exceptionText))
      == Some(Text.Trim(exceptionText))
  {
    var s := TestMethodPrefix + methodName + ThrewException + exceptionText;
    var j := |TestMethodPrefix| + |methodName|;
    assert s[..|TestMethodPrefix|] == TestMethodPrefix;
    assert s[|TestMethodPrefix|..j] == methodName;
    assert s[j..j + |ThrewException|] == ThrewException;
    assert s[j + |ThrewException|..] == exceptionText;
    assert MatchesAt(s, j);
  }

  /** The usual runner message: the exception text after the boilerplate starts on a
      new, indented line; the short message is the exception text alone. */
  lemma ShortenWrappedIndented(methodName: string, indent: string, exceptionText: string)
    requires NoSpace(methodName)
    requires Text.AllWhiteSpace(indent) && Text.Trimmed(exceptionText)
    ensures GetShortErrorMessage(Some(TestMethodPrefix + methodName + ThrewException + (indent + exceptionText)))
      == Some(exceptionText)
  {
    var t := indent + exceptionText;
    assert Text.Trim(t) == exceptionText by {
      assert indent + exceptionText + "" == t;
      Text.TrimPadded(indent, exceptionText, "");
    }
    ShortenWrapped(methodName, t);
  }

  // ---------------------------------------------------------------------------
  // Result translation

  const StdOutCategory: string := "StdOutMsgs"
  const StdErrCategory: string := "StdErrMsgs"

  /** `ToTestResult`: the method and the duration are copied, the outcome is
      classified, the standard streams are the texts of their categories (`null`
      when empty), the error message is shortened and the stack trace is the
      parser's reading of the raw stack text. */
  function ToTestResult<Method, Duration, StackItem>(
    testResult: RawTestResult<Duration>,
    testMethod: Method,
    fromStackTrace: Option<string> -> seq<StackItem>): (r: Data.TestResult<Method, Duration, StackItem>)
    ensures r.testMethod == testMethod && r.duration == testResult.duration
    ensures r.outcome == ToTestState(testResult.outcome)
    ensures r.stdOut == CategoryOutput(testResult.messages, StdOutCategory)
    ensures r.stdErr == CategoryOutput(testResult.messages, StdErrCategory)
    ensures r.errorMessage == GetShortErrorMessage(testResult.errorMessage)
    ensures r.stackTrace == fromStackTrace(testResult.errorStackTrace)
  {
    Data.TestResult(
      testMethod,
      testResult.duration,
      ToTestState(testResult.outcome),
      CategoryOutput(testResult.messages, StdOutCategory),
      CategoryOutput(testResult.messages, StdErrCategory),
      GetShortErrorMessage(testResult.errorMessage),
      fromStackTrace(testResult.errorStackTrace))
  }

  /** A message that is neither standard output nor standard error, inserted
      anywhere among the messages, leaves the translated result unchanged. */
  lemma ToTestResultIgnoresOtherMessages<Method, Duration, StackItem>(
    testResult: RawTestResult<Duration>, i: nat, m: TestResultMessage,
    testMethod: Method, fromStackTrace: Option<string> -> seq<StackItem>)
    requires i <= |testResult.messages|
    requires !InCategory(m, StdOutCategory) && !InCategory(m, StdErrCategory)
    ensures ToTestResult(testResult.(messages := testResult.messages[..i] + [m] + testResult.messages[i..]),
                         testMethod, fromStackTrace)
         == ToTestResult(testResult, testMethod, fromStackTrace)
  {
    var ms := testResult.messages;
    assert ms[..i] + ms[i..] == ms;
    OtherCategoryIgnored(ms[..i], m, ms[i..], StdOutCategory);
    OtherCategoryIgnored(ms[..i], m, ms[i..], StdErrCategory);
  }

  // ---------------------------------------------------------------------------
  // Platform and adapter assemblies

  /** The IDE's test-window directory, relative to its install directory. */
  const TestWindowDirectory: string := "CommonExtensions\\Microsoft\\TestWindow"

  /** The test-platform assemblies of the IDE's own test window. */
  const IntegratedTestPlatformAssemblies: seq<string> := [
    TestWindowDirectory + "\\msdia140typelib_clr0200.dll",
    TestWindowDirectory + "\\Microsoft.VisualStudio.TestPlatform.ObjectModel.dll",
    TestWindowDirectory + "\\Microsoft.VisualStudio.QualityTools.UnitTestFramework.dll"
  ]

  /** The test-platform assembly AxoCover ships under its package root. */
  const StandardTestPlatformAssemblies: seq<string> := [
    "TestPlatform" + "\\Microsoft.VisualStudio.TestPlatform.ObjectModel.dll"
  ]

  /** The directory of the IDE's own test adapter, relative to its install directory. */
  const TestWindowExtensionsDirectory: string := TestWindowDirectory + "\\Extensions"

  /** The file name of the IDE's own test adapter. */
  const IntegratedTestAdapterFileName: string :=
    "Microsoft.VisualStudio." + "TestPlatform.Extensions." + "VSTestIntegration.dll"

  /** The IDE's own test adapter. */
  const IntegratedTestAdapterAssembly: string :=
    TestWindowExtensionsDirectory + [Paths.DirectorySeparator] + IntegratedTestAdapterFileName

  /** None of the fixed assembly paths is rooted, so `Path.Combine` puts each under
      the root it is given. */
  lemma FixedPathsRelative()
    ensures forall i :: 0 <= i < |IntegratedTestPlatformAssemblies| ==> !Paths.IsPathRooted(IntegratedTestPlatformAssemblies[i])
    ensures forall i :: 0 <= i < |StandardTestPlatformAssemblies| ==> !Paths.IsPathRooted(StandardTestPlatformAssemblies[i])
    ensures !Paths.IsPathRooted(IntegratedTestAdapterAssembly) && IntegratedTestAdapterAssembly != []
  {
  }

  /** `Select(p => Path.Combine(root, p))`. */
  function CombineAll(root: string, paths: seq<string>): (r: seq<string>)
    ensures |r| == |paths|
    ensures forall i :: 0 <= i < |paths| ==> r[i] == Paths.Combine(root, paths[i])
  {
    seq(|paths|, i requires 0 <= i < |paths| => Paths.Combine(root, paths[i]))
  }

  /** The switch of `GetTestPlatformAssemblyPaths` followed by the `Select`: every
      assembly of the mode's list under the mode's root, in list order. */
  function PlatformCandidates(adapterMode: TestAdapterMode, host: Option<string>, packageRoot: string)
    : (r: Result<seq<string>, Exception>)
    ensures r.Failure? <==> adapterMode.OtherMode? || (adapterMode.Integrated? && host.None?)
    ensures adapterMode.OtherMode? ==> r == Failure(NotImplementedException)
    ensures adapterMode.Integrated? && host.None? ==> r == Failure(InvalidOperationException)
    ensures r.Success? ==> |r.value| == if adapterMode.Integrated? then 3 else 1
    ensures adapterMode.Integrated? && host.Some? ==>
      r == Success(CombineAll(Paths.DirectoryName(host.value), IntegratedTestPlatformAssemblies))
    ensures adapterMode.Standard? ==> r == Success(CombineAll(packageRoot, StandardTestPlatformAssemblies))
  {
    match adapterMode
    case Integrated =>
      if host.Some? then Success(CombineAll(Paths.DirectoryName(host.value), IntegratedTestPlatformAssemblies))
      else Failure(InvalidOperationException)
    case Standard => Success(CombineAll(packageRoot, StandardTestPlatformAssemblies))
    case OtherMode(_) => Failure(NotImplementedException)
  }

  /** `GetTestPlatformAssemblyPaths`: the candidates that exist, in list order. It
      throws `NotImplementedException` for an unknown mode and
      `InvalidOperationException` in integrated mode without an IDE; standard mode
      never throws. */
  function GetTestPlatformAssemblyPaths(adapterMode: TestAdapterMode, host: Option<string>,
                                        packageRoot: string, fileExists: string -> bool)
    : (r: Result<seq<string>, Exception>)
    ensures r.Failure? <==> adapterMode.OtherMode? || (adapterMode.Integrated? && host.None?)
    ensures adapterMode.OtherMode? ==> r == Failure(NotImplementedException)
    ensures adapterMode.Integrated? && host.None? ==> r == Failure(InvalidOperationException)
    ensures r.Success? ==> |r.value| <= if adapterMode.Integrated? then 3 else 1
    ensures r.Success? ==> forall p :: p in r.value ==> fileExists(p)
    ensures r.Success? ==>
      var candidates := PlatformCandidates(adapterMode, host, packageRoot).value;
      Seqs.IsSubsequence(r.value, candidates) &&
      forall p :: p in candidates && fileExists(p) ==> p in r.value
  {
    var candidates := PlatformCandidates(adapterMode, host, packageRoot);
    if candidates.Failure? then Failure(candidates.error)
    else
      var found := Seqs.Where(candidates.value, fileExists);
      Success(found)
  }

  /** `GetTestAdapterAssemblyPaths`: in integrated mode `null` without an IDE and
      otherwise the IDE's adapter, unchecked; in standard mode the adapters found
      under the package root; `NotImplementedException` for an unknown mode. */
  function GetTestAdapterAssemblyPaths(adapterMode: TestAdapterMode, host: Option<string>,
                                       packageAdapters: seq<string>)
    : (r: Result<Option<seq<string>>, Exception>)
    ensures r.Failure? <==> adapterMode.OtherMode?
    ensures r.Failure? ==> r.error == NotImplementedException
    ensures adapterMode.Integrated? ==> r.Success? && (r.value.None? <==> host.None?)
    ensures adapterMode.Integrated? && host.Some? ==>
      var installDir := Paths.DirectoryName(host.value);
      r.value.value ==
        if installDir == [] || Paths.EndsWithSeparator(installDir)
        then [installDir + IntegratedTestAdapterAssembly]
        else [installDir + [Paths.DirectorySeparator] + IntegratedTestAdapterAssembly]
    ensures adapterMode.Standard? ==> r == Success(Some(packageAdapters))
  {
    match adapterMode
    case Integrated =>
      if host.Some? then
        FixedPathsRelative();
        var installDir := Paths.DirectoryName(host.value);
        assert installDir == [] ==> installDir + IntegratedTestAdapterAssembly == IntegratedTestAdapterAssembly;
        Success(Some([Paths.Combine(installDir, IntegratedTestAdapterAssembly)]))
      else Success(None)
    case Standard => Success(Some(packageAdapters))
    case OtherMode(_) => Failure(NotImplementedException)
  }

  /** The IDE's adapter path names one file in the test window's `Extensions`
      directory under the install directory. */
  lemma IntegratedAdapterDirectory(host: string, packageAdapters: seq<string>)
    ensures var r := GetTestAdapterAssemblyPaths(Integrated, Some(host), packageAdapters);
      Paths.DirectoryName(r.value.value[0]) ==
        Paths.Combine(Paths.DirectoryName(host), TestWindowExtensionsDirectory)
  {
    assert !Paths.HasDirectorySeparator(IntegratedTestAdapterFileName) by {
      var a, b, c := "Microsoft.VisualStudio.", "TestPlatform.Extensions.", "VSTestIntegration.dll";
      assert !Paths.HasDirectorySeparator(a) && !Paths.HasDirectorySeparator(b) && !Paths.HasDirectorySeparator(c);
      Paths.NoSeparatorAppend(a, b);
      Paths.NoSeparatorAppend(a + b, c);
    }
    assert TestWindowExtensionsDirectory[0] == 'C' && TestWindowExtensionsDirectory[1] == 'o';
    Paths.DirectoryNameOfCombine(Paths.DirectoryName(host), TestWindowExtensionsDirectory, IntegratedTestAdapterFileName);
  }

  /** Without an IDE the two integrated lookups part ways: the adapter lookup answers
      `null`, the platform lookup throws. */
  lemma MissingHostAsymmetry(packageRoot: string, fileExists: string -> bool, packageAdapters: seq<string>)
    ensures GetTestAdapterAssemblyPaths(Integrated, None, packageAdapters) == Success(None)
    ensures GetTestPlatformAssemblyPaths(Integrated, None, packageRoot, fileExists) == Failure(InvalidOperationException)
  {
  }

  /** Every path `Select` builds from relative paths lies under the root. */
  lemma CombineAllUnderRoot(root: string, paths: seq<string>)
    requires forall i :: 0 <= i < |paths| ==> !Paths.IsPathRooted(paths[i])
    ensures forall p :: p in CombineAll(root, paths) ==> |root| <= |p| && p[..|root|] == root
  {
    var all := CombineAll(root, paths);
    forall p | p in all ensures |root| <= |p| && p[..|root|] == root {
      var i :| 0 <= i < |all| && all[i] == p;
      assert p == Paths.Combine(root, paths[i]);
    }
  }

  /** Every platform assembly found lies under the mode's root: the IDE's install
      directory in integrated mode, the package root in standard mode. */
  lemma PlatformPathsUnderRoot(adapterMode: TestAdapterMode, host: Option<string>,
                               packageRoot: string, fileExists: string -> bool)
    ensures var r := GetTestPlatformAssemblyPaths(adapterMode, host, packageRoot, fileExists);
      r.Success? ==>
      var root := if adapterMode.Integrated? then Paths.DirectoryName(host.value) else packageRoot;
      forall p :: p in r.value ==> |root| <= |p| && p[..|root|] == root
  {
    FixedPathsRelative();
    if adapterMode.Integrated? && host.Some? {
      CombineAllUnderRoot(Paths.DirectoryName(host.value), IntegratedTestPlatformAssemblies);
    } else if adapterMode.Standard? {
      CombineAllUnderRoot(packageRoot, StandardTestPlatformAssemblies);
    }
  }
}
