# AxoCover adapter extensions, modelled in Dafny

This project models `AdapterExtensions`, the static class that AxoCover (a Visual
Studio extension for unit testing and coverage) uses at the boundary with its test
runner. The class does two jobs:

- **Assembly lookup.** For each test-adapter mode it finds the assemblies that must
  be loaded. `Integrated` mode borrows the IDE's own test platform, found under the
  IDE's install directory. `Standard` mode uses the assemblies shipped under the
  extension's package root.
- **Result translation.** It turns the runner's result of one test into AxoCover's
  `TestResult` record. The outcome is classified, standard output and standard
  error are demultiplexed from the captured messages, the runner's boilerplate is
  stripped from the error message, and the stack text goes to an external parser.

Files:

- `adapter_extensions.dfy`: module `AdapterExtensions`, the core.
- `test_result.dfy`: module `Data`, the `TestState` enum and the `TestResult` record
  (`AxoCover/Models/Data/TestResult.cs:5-20`), as a plain datatype.
- `text.dfy`: module `Text`, .NET's `String.Trim()` over the `Char.IsWhiteSpace` set.
- `paths.dfy`: module `Paths`, `Path.Combine` and `Path.GetDirectoryName` for
  Windows paths.
- `seqs.dfy`: module `Seqs`, LINQ's `Where` and the subsequence relation.
- `wrappers.dfy`: module `Wrappers`, `Option` (for `null`) and `Result` (for a thrown
  exception).

Modelling choices:

- C# enums can hold values outside their named members. So each enum has an extra
  constructor carrying the raw value: `OtherMode`, `OtherLevel` and `OtherOutcome`.
  The `default:` branches are reachable through these.
- Ambient inputs become parameters:
  - `host: Option<string>` replaces the IDE's global `DTE` lookup. It holds
    `dte.FullName`, or `None` when no IDE is available.
  - `fileExists` replaces `File.Exists`.
  - `fromStackTrace` replaces `StackItem.FromStackTrace`.
  - `packageAdapters` is the result of the recursive `*.TestAdapter.dll` scan.
- The test method, the duration and the stack frames are only copied, so they are
  type parameters of the record.
- `ConcatenateMessagesInCategory` keeps its loop, as a method. It is proved equal to
  the function `CategoryOutput`. `ToTestResult` is a function, so it uses
  `CategoryOutput`, because a function cannot call a method.
- The shortening regex `^Test method [^ ]* threw exception:(?<exception>.*)$` is
  compiled with `Singleline`. The model decodes this one pattern by slicing:
  - The message must start with `Test method `.
  - `[^ ]*` can only end at the first space after that prefix.
  - The text from that space on must be ` threw exception:`.
  - The group is everything after that. Greedy `.*` reaches the end of the string,
    so `$` adds nothing.

  `ExceptionGroup` proves that a match at that position is the only possible one.

Two details of the code are followed exactly:

- Standard output is `null` whenever the concatenated text is empty (`sb.Length > 0`,
  line 134). That covers a list with no message of the category, and also one whose
  matching messages all have empty or `null` texts. `CategoryOutput` states this
  condition.
- The messages are an `IList` walked in order, so the model concatenates the texts
  in list order.

## Model

| member | source | states |
|---|---|---|
| AdapterExtensions.ToTestState | AxoCover/Models/Extensions/AdapterExtensions.cs:98-109 | the state is `Failed` iff the outcome is `Failed`, `Passed` iff `Passed`, and `Inconclusive` for every other outcome value |
| AdapterExtensions.GetShortName | AxoCover/Models/Extensions/AdapterExtensions.cs:83-96 | total; the tag always has 4 characters; Informational gives INFO, Warning gives WARN and Error gives FAIL; it is MISC exactly for levels outside the three named ones |
| AdapterExtensions.ShortNamesDistinct | AxoCover/Models/Extensions/AdapterExtensions.cs:87-92 | the three named levels get pairwise different tags |
| AdapterExtensions.CategoryOutput | AxoCover/Models/Extensions/AdapterExtensions.cs:125-135 | `null` iff every message of the category has an empty or `null` text (including when there is none); otherwise the in-order concatenation of exactly the texts of the category's messages |
| AdapterExtensions.ConcatenateMessagesInCategory | AxoCover/Models/Extensions/AdapterExtensions.cs:125-135 | the append loop over the messages returns exactly `CategoryOutput`; the invariant is that the buffer holds the category text of the prefix walked so far |
| AdapterExtensions.CategoryTextAppend | AxoCover/Models/Extensions/AdapterExtensions.cs:129-132 | the category text of two consecutive message lists is the concatenation of their category texts |
| AdapterExtensions.OtherCategoryIgnored | AxoCover/Models/Extensions/AdapterExtensions.cs:129 | inserting a message of another category, or with a `null` category, anywhere in the list leaves the category text unchanged |
| AdapterExtensions.CategoryTextEmpty | AxoCover/Models/Extensions/AdapterExtensions.cs:134 | the category text is empty iff every message of the category has an empty text |
| AdapterExtensions.FirstSpace | AxoCover/Models/Extensions/AdapterExtensions.cs:137 | the index where `[^ ]*` must stop: no space between the start and it, and a space at it unless it is the end |
| AdapterExtensions.MatchAtFirstSpace | AxoCover/Models/Extensions/AdapterExtensions.cs:137 | any match of the regex has `[^ ]*` ending at the first space after `Test method ` |
| AdapterExtensions.ExceptionGroup | AxoCover/Models/Extensions/AdapterExtensions.cs:137-145 | the match succeeds iff some split `Test method ` + space-free name + ` threw exception:` + rest exists, and then the group is that rest |
| AdapterExtensions.GetShortErrorMessage | AxoCover/Models/Extensions/AdapterExtensions.cs:140-151 | `null` iff the input is `null`; a message the regex does not match is returned unchanged; a matched message gives the trimmed text after ` threw exception:` |
| AdapterExtensions.ShortenWrapped | AxoCover/Models/Extensions/AdapterExtensions.cs:137-145 | round trip: wrapping any exception text in the runner's sentence around any space-free method name and shortening gives back the trimmed exception text |
| AdapterExtensions.ShortenWrappedIndented | AxoCover/Models/Extensions/AdapterExtensions.cs:145 | an exception text after a line break and indentation comes back exactly, with the white space dropped |
| Text.TrimStart | AxoCover/Models/Extensions/AdapterExtensions.cs:145 | the kept part is a suffix of the input that does not start with white space, and everything dropped is white space |
| Text.TrimEnd | AxoCover/Models/Extensions/AdapterExtensions.cs:145 | the kept part is a prefix of the input that does not end with white space, and everything dropped is white space |
| Text.Trim | AxoCover/Models/Extensions/AdapterExtensions.cs:145 | the result has no white space at either end; it is the contiguous piece of the input that starts where the leading white space ends, with only white space before and after it; it is empty iff the input is all white space |
| Text.TrimPadded | AxoCover/Models/Extensions/AdapterExtensions.cs:145 | trimming a string that has no outer white space, after padding it with white space on both sides, gives the string back |
| Text.TrimIdempotent | AxoCover/Models/Extensions/AdapterExtensions.cs:145 | trimming twice is trimming once |
| AdapterExtensions.ToTestResult | AxoCover/Models/Extensions/AdapterExtensions.cs:111-123 | method and duration copied; outcome classified by `ToTestState`; StdOut and StdErr are the `CategoryOutput` of "StdOutMsgs" and "StdErrMsgs"; error message shortened; stack trace parsed from the raw stack text |
| AdapterExtensions.ToTestResultIgnoresOtherMessages | AxoCover/Models/Extensions/AdapterExtensions.cs:118-119 | a message in neither standard stream, inserted anywhere, does not change the translated record |
| AdapterExtensions.FixedPathsRelative | AxoCover/Models/Extensions/AdapterExtensions.cs:37-47 | none of the fixed platform paths, nor the fixed adapter path, is rooted |
| AdapterExtensions.CombineAll | AxoCover/Models/Extensions/AdapterExtensions.cs:78 | the `Select`: one combined path per fixed path, position by position |
| AdapterExtensions.CombineAllUnderRoot | AxoCover/Models/Extensions/AdapterExtensions.cs:78 | every path combined from a relative path starts with the root |
| AdapterExtensions.PlatformCandidates | AxoCover/Models/Extensions/AdapterExtensions.cs:54-78 | fails with InvalidOperation in Integrated mode without a host and with NotImplemented for an unknown mode; otherwise gives 3 candidates in Integrated mode and 1 in Standard mode, namely each fixed path combined with the host's install directory (Integrated) or with the package root (Standard), in list order |
| AdapterExtensions.GetTestPlatformAssemblyPaths | AxoCover/Models/Extensions/AdapterExtensions.cs:49-81 | the same two failures, and no others (Standard mode never fails); on success an order-preserving subsequence of the candidates that holds every existing candidate and only existing ones; at most 3 paths in Integrated mode and at most 1 in Standard mode |
| AdapterExtensions.PlatformPathsUnderRoot | AxoCover/Models/Extensions/AdapterExtensions.cs:54-78 | every platform path found lies under the host's install directory (Integrated) or under the package root (Standard) |
| AdapterExtensions.GetTestAdapterAssemblyPaths | AxoCover/Models/Extensions/AdapterExtensions.cs:17-35 | fails (NotImplemented) exactly for an unknown mode; Integrated gives `null` iff there is no host, else exactly one path, with no existence check: the install directory followed by the fixed adapter path, joined by one `\` unless the directory is empty or already ends in a separator; Standard passes the scan result through |
| AdapterExtensions.IntegratedAdapterDirectory | AxoCover/Models/Extensions/AdapterExtensions.cs:23-26 | the directory of the IDE adapter path is the install directory combined with `CommonExtensions\Microsoft\TestWindow\Extensions` |
| AdapterExtensions.MissingHostAsymmetry | AxoCover/Models/Extensions/AdapterExtensions.cs:23-64 | without a host, the Integrated adapter lookup returns `null` while the Integrated platform lookup throws InvalidOperation |
| Seqs.Where | AxoCover/Models/Extensions/AdapterExtensions.cs:79 | keeps an order-preserving subsequence; every kept element satisfies the predicate; each satisfying element is kept as often as it occurs; nothing else is kept |
| Seqs.WhereAppend | AxoCover/Models/Extensions/AdapterExtensions.cs:129 | filtering two consecutive lists is filtering each and concatenating |
| Paths.Combine | AxoCover/Models/Extensions/AdapterExtensions.cs:78 | an empty path gives the root; a rooted path, or any path after an empty root, is returned as it is; otherwise the root and the path joined by exactly one `\`, which is left out when the root already ends in a directory or volume separator |
| Paths.DirectoryName | AxoCover/Models/Extensions/AdapterExtensions.cs:62 | a prefix of the path that stops just before its last directory separator, or empty when the path has none |
| Paths.DirectoryNameOfCombine | AxoCover/Models/Extensions/AdapterExtensions.cs:25-26 | the directory of `Combine(dir, sub\name)` is `Combine(dir, sub)` for a non-empty relative `sub` and a `name` with no separator |

## Left out

- The recursive `Directory.GetFiles(PackageRoot, "*.TestAdapter.dll", AllDirectories)` scan of `GetTestAdapterAssemblyPaths` (line 31) is file-system I/O. The model takes its result as the parameter `packageAdapters` and passes it through. The scan's order and Windows wildcard matching are not modelled.
- `Package.GetGlobalService(typeof(DTE))` (lines 23, 60) is IDE global state. It is the parameter `host`.
- `File.Exists` (line 79) is file-system I/O. It is the predicate parameter `fileExists`.
- `StackItem.FromStackTrace` (line 121) is an external parser. It is the function parameter `fromStackTrace`.
- `AxoCoverPackage.PackageRoot` is a configured path. It is the parameter `packageRoot`.
- Paths.Combine: does not model the `ArgumentException` that .NET throws for invalid path characters, or the `ArgumentNullException` for a `null` argument.
- Paths.DirectoryName: does not model root handling in `GetDirectoryName`: `null` for a root path, keeping the separator of `C:\`, and path normalisation. A `null` directory name would make `Path.Combine` throw; that case is not modelled.
- The named members of the runner's `TestOutcome` enum other than `Passed` and `Failed` are not listed. The translation treats them all alike, so `OtherOutcome` covers them.
- `StringBuilder.Length` counts UTF-16 code units and the model counts `char`s. Both are zero for exactly the same strings, which is all line 134 tests.
- The .NET regular-expression engine in general. Only the one fixed pattern of line 137 is decoded.
- Null inputs, which the model's types rule out. A `null` message list makes `Where` throw `ArgumentNullException` (line 129). A `null` element of the list throws `NullReferenceException` at `m.Category` (line 129). A `null` runner result throws `NullReferenceException` at `testResult.Duration` (line 116).
- The non-negative duration of the record is not modelled. The duration is an opaque copied value.
