# go-md-spec-check: the conformance harness, modelled in Dafny

`mdspec` checks a caller's Markdown-to-HTML function against the CommonMark
conformance examples that are embedded in the package. For each example it
passes the Markdown to the function and compares the HTML that comes back with
the expected HTML. This project models the harness's decision logic:

- `isValidFormatVer`: which version tokens are accepted. That is `latest`, or
  a Go semantic version as `golang.org/x/mod/semver` reads it.
- `SpecCheckWithConcurrency`: the request pipeline.
  - Validate the version.
  - Name the fixture file `spec_<version>.json`.
  - Read the file and decode it.
  - Run the examples one after another, stopping at the first failure
    (`maxConcurrency == -1`), or all of them concurrently (any other value).
- `SpecCheck`: the same pipeline with the default concurrency, `0`.
- `runSingleTest`: the verdict on one example. It is a pass, a function error
  or a mismatch, and it carries the example's identifier
  `<example number>_<section>`.
- `runTestsConcurrently`: only its outcome. "No error" exactly when every
  example passes, otherwise the failure of some failing example.
- `ListVersion`: the versions named in the index file, in its order.
- The `TestCase` record.

Modules, one per file:

| file | module | contents |
|---|---|---|
| `wrappers.dfy` | `Wrappers` | `Option`, `Result`, and `Outcome` (pass, or fail with an error) |
| `decimal.dfy` | `Decimal` | Go's `%d` rendering of an `int`, with its inverse |
| `semver.dfy` | `SemVer` | the semantic-version grammar, twice: as the scanner `Parse`, and as the declarative record `Version` with its `Render`; the two are proved equivalent |
| `fixtures.dfy` | `Fixtures` | `TestCase`, the version index rows, and the corpus `Store` |
| `runner.dfy` | `Runner` | the caller's function (`Converter`), the two kinds of `Failure`, `TestName`, `RunSingleTest` |
| `scheduler.dfy` | `Scheduler` | sequential mode (`RunSequential`) and concurrent mode (`RunConcurrently`) |
| `mdspec.dfy` | `MdSpec` | `IsValidFormatVer`, `LoadCases`, `SpecCheckWithConcurrency`, `SpecCheck`, `ListVersion` |

The outside world becomes parameters:

- The caller's function is a total Dafny function `string -> Output`. An
  `Output` holds the HTML and an optional error message, like Go's
  `(string, error)` pair.
- The embedded file system and `json.Unmarshal` are three oracles in a
  `Store`:
  - a file reader;
  - a decoder for a fixture file;
  - a decoder for the index file.

  Each either yields a value or fails with a message.
- Error messages are reduced to an `Error` datatype: one variant per failure
  site, each holding that site's payload (the bad token, the file name, the
  failure of the example, the underlying cause).

Concurrent mode is modelled by what it returns, not by how it schedules:

- Every example is run. The order of the calls is left open; the model
  promises only that the calls made are, as a multiset, the inputs of the
  examples.
- The reported failure is chosen nondeterministically (`:|`) among the
  failing examples.

Points where a reader might expect otherwise; the model follows the code:

- Concurrent mode runs every example, even after a failure. The errgroup's
  context is never consulted by the goroutines (`mdspec/mdspec.go:225-237`),
  so no launch is skipped.
- The package example (`mdspec/examples_test.go:26-30`) shows `SpecCheck`
  printing exactly the failure of example `1_Tabs`. The code runs that check
  concurrently, so it reports whichever failure errgroup records first, and
  `mdspec/mdspec.go:239` puts `failed to run tests concurrently` in front of
  it. `MdSpec.SpecCheck` and `MdSpec.CheckWithConstantOutput` promise only a
  `ConcurrentRunFailed` carrying the failure of some failing example.
- Any `maxConcurrency` other than `-1` takes the concurrent path
  (`mdspec/mdspec.go:100-111`). That includes negative values below `-1`.
  The doc comment of `SpecCheckWithConcurrency` (`mdspec/mdspec.go:69-77`)
  describes only `-1` and `0`.

## Model

| member | source | states |
|---|---|---|
| Decimal.FormatIntRoundTrip | mdspec/mdspec.go:198 | the `%d` rendering of the example number is read back as the same integer, so no information is lost |
| Decimal.FormatIntInjective | mdspec/mdspec.go:198 | distinct example numbers print differently |
| SemVer.ParseRender | mdspec/mdspec.go:178 | every well-formed version renders to a token that the scanner accepts and reads back as the same version |
| SemVer.RenderParse | mdspec/mdspec.go:178 | every token the scanner accepts is well formed and is exactly the rendering of what was read |
| SemVer.ValidIffRendered | mdspec/mdspec.go:178 | a token is valid if and only if it renders some well-formed version: `v`, a major number, then optionally a minor number, then optionally a patch number with pre-release and build suffixes; numbers and numeric pre-release ids have no leading zero |
| SemVer.ScanIdsSound | mdspec/mdspec.go:178 | the dot-separated identifiers the scanner reads are well formed and re-join into the text consumed |
| SemVer.ScanIdsComplete | mdspec/mdspec.go:178 | any well-formed identifier list, followed by text that cannot continue it, is read back exactly |
| SemVer.ValidTokenChars | mdspec/mdspec.go:178 | a valid token holds only letters, digits, `-`, `.` and `+` |
| MdSpec.ValidFormatVerGrammar | mdspec/mdspec.go:173-179 | a version argument is accepted if and only if it is `latest` or renders a well-formed semantic version |
| MdSpec.AcceptsLatest | mdspec/mdspec_unit_test.go:52 | `latest` is accepted |
| MdSpec.AcceptsMajorMinor | mdspec/mdspec_unit_test.go:53 | `v0.14` is accepted |
| MdSpec.AcceptsMajorMinorPatch | mdspec/mdspec_unit_test.go:54 | `v0.31.2` is accepted |
| MdSpec.AcceptsZeroPatch | mdspec/mdspec_unit_test.go:55 | `v1.14.0` is accepted |
| MdSpec.AcceptsMajorOnly | mdspec/mdspec_unit_test.go:56 | `v1` is accepted |
| MdSpec.RefusesMissingPrefix | mdspec/mdspec_unit_test.go:58-60 | `0.14`, `version 1.14` and `vvvv1.14` are refused |
| MdSpec.RefusesTrailingNewline | mdspec/mdspec_unit_test.go:61 | `v0.14` followed by a newline is refused |
| MdSpec.FixtureNameRoundTrip | mdspec/mdspec.go:86 | the version can be recovered from its fixture name `spec_<version>.json`, so distinct versions seek distinct files |
| MdSpec.FixtureNameHasNoSeparator | mdspec/mdspec.go:86 | the fixture name of an accepted version contains no `/`, so joining it under the corpus directory is plain concatenation |
| MdSpec.LoadCases | mdspec/mdspec.go:81-98 | an invalid token fails with the token; otherwise a failed read fails naming `spec_<version>.json` and passing on the cause; otherwise a failed decode fails with the decoder's cause; otherwise the decoded examples are returned |
| MdSpec.InvalidVersionIgnoresStore | mdspec/mdspec.go:81-84 | an invalid token is refused before any file is read or decoded, whatever the corpus and decoders would do |
| MdSpec.OnlyFixtureFileIsRead | mdspec/mdspec.go:86-98 | a valid version depends only on the file `_specs/spec_<version>.json` and the example decoder |
| MdSpec.UnsupportedVersionExample | mdspec/mdspec_unit_test.go:245-251 | `v0.1` passes validation, and with no such file the check fails naming `spec_v0.1.json` |
| Runner.TestNameRoundTrip | mdspec/mdspec.go:198 | the identifier `<number>_<section>` splits back into the example number and the section, even when the section contains `_` |
| Runner.TestNameInjective | mdspec/mdspec.go:198 | examples that differ in number or section get different identifiers |
| Runner.TabsExampleName | mdspec/examples_test.go:27 | example 1 of the section "Tabs" is reported as `1_Tabs` |
| Runner.RunSingleTest | mdspec/mdspec.go:197-219 | a function error beats everything, whatever HTML came with it. Otherwise the example passes exactly when the HTML equals the expected HTML, with no normalisation, and is a mismatch if not. Every failure carries the identifier, the Markdown, the expected and the actual HTML; a function error also carries the function's message |
| Scheduler.FirstFailure | mdspec/mdspec.go:101-105 | the index of the first failing example: all before it pass, and it fails, or it equals the number of examples when all pass |
| Scheduler.RunSequential | mdspec/mdspec.go:100-109 | sequential mode passes exactly when every example passes. Otherwise it reports the verdict of the first failing example, having called the function on the examples up to and including that one, in fixture order |
| Scheduler.RunConcurrently | mdspec/mdspec.go:224-240 | concurrent mode calls the function once per example, in some order, and passes exactly when every example passes. Otherwise it reports the verdict of some failing example |
| Scheduler.GoldenFunctionPasses | mdspec/mdspec_unit_test.go:168-188 | a function that answers each recorded Markdown with its recorded HTML passes every example of a consistent corpus |
| Scheduler.AlwaysFailingStopsAtFirst | mdspec/mdspec_unit_test.go:516-519 | a function that always fails ends a sequential run after one call, with a function error |
| Scheduler.ConstantOutputMismatch | mdspec/mdspec_unit_test.go:192-203 | in sequential mode, a function that always returns the same HTML fails with a mismatch unless every example expects that HTML |
| MdSpec.CheckWithConstantOutput | mdspec/mdspec_unit_test.go:192-203 | the default, concurrent, check of a function that always returns the same HTML fails with a mismatch whenever some example expects other HTML; the failure shows that HTML as the actual output |
| MdSpec.SpecCheckWithConcurrency | mdspec/mdspec.go:78-112 | invalid, unreadable and undecodable fixtures fail without calling the function. Otherwise the check passes exactly when every example passes. With `-1`, a failure is the first failing example's and the calls stop there, in fixture order. With any other value every example is called once and a failure is some failing example's |
| MdSpec.SpecCheck | mdspec/mdspec.go:65-67 | the default check runs in concurrent mode: every example is called once, and it passes exactly when every example passes, otherwise reporting some failing example |
| MdSpec.CheckWithFailingFunction | mdspec/mdspec_unit_test.go:509-525 | a function that always fails makes the check fail in either mode, with a function error that carries the function's own message; in sequential mode only one call is made |
| MdSpec.Versions | mdspec/mdspec.go:133-138 | the listing has one entry per index row, each the row's `version`, in index order |
| MdSpec.ListVersion | mdspec/mdspec.go:115-141 | a failed read or a failed decode of `spec_list.json` returns no list and passes on the cause; otherwise it returns the index's versions in index order |

## Left out

- Scheduling in concurrent mode is left out, because the outcome does not
  depend on it. That covers:
  - errgroup;
  - `SetLimit`;
  - replacing a limit of `0` with `runtime.GOMAXPROCS(0)`;
  - the interleaving of goroutines.

  The limit value is accepted but plays no further part.
- The order of the calls in concurrent mode is left open. The model promises
  only that the calls are, as a multiset, the examples' inputs.
- `RunConcurrently`: "each example is called once" assumes that every
  goroutine started at `mdspec/mdspec.go:233-236` captures its own
  `testCase`. That is the loop-variable rule of Go 1.22 and later, which
  depends on the module's `go` directive; `go.mod` is not part of this model.
- Markdown and HTML are modelled as sequences of Unicode characters, while Go
  compares the bytes of its strings (`mdspec/mdspec.go:210`). The two agree
  on valid UTF-8, and the decoded fixtures always are. A function output that
  is not valid UTF-8 cannot be expressed in the model. Returned without an
  error, Go always reports such an output as a mismatch.
- The source of `golang.org/x/mod/semver` is not part of this model, but its
  behaviour is: `SemVer.Parse` follows the package's documented grammar:
  - `v` followed by a major version, then an optional minor version;
  - an optional patch version after the minor;
  - pre-release and build suffixes only after the patch;
  - no leading zeros in numbers or in numeric pre-release identifiers;
  - non-empty identifiers made of letters, digits and `-`.
- The embedded file system (`embed.FS`, `getNamesFile`) and `json.Unmarshal`
  are oracles in a `Store`. File contents and JSON syntax are outside the
  model.
- `filepath.Join` and `filepath.ToSlash` are modelled as joining with `/`.
  `MdSpec.FixtureNameHasNoSeparator` shows that a valid version cannot add a
  separator of its own.
- Error message text is replaced by `Error` and `Failure` variants with their
  payloads. This covers the `errors.Wrap` and `errors.Errorf` wording and
  Go's `%#v` quoting. That `errors.Wrap` of a nil error is nil is reflected in
  `Pass`.
- `TestName`: the identifier is built from an unbounded integer. Go's `int`
  is 64 bits wide, but `%d` prints every value in that range the same way.
- The download tools under `mdspec/_updater` and `mdspec/_specs` are left
  out: they do HTTP, HTML scraping, hashing and file writes.
- Benchmarks and timing-based assertions about how many goroutines overlap
  are left out: they measure time, not outcomes.
- What the real fixtures contain, such as the concrete list `ListVersion`
  prints, is data and is not modelled. `MdSpec.ListVersion` states the order
  it preserves.
