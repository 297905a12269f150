/**
  The harness's public entry points: check a conversion function against
  the examples of one spec version, and list the versions on offer.
*/
module MdSpec {
  import opened Wrappers
  import opened Fixtures
  import opened Runner
  import opened Scheduler
  import SemVer

  /** Everything a check or a listing can fail with; messages are reduced to their payloads. */
  datatype Error =
    | InvalidVersionFormat(version: string)
    | SpecFileNotFound(fileName: string, cause: string)
    | SpecDecodeFailed(cause: string)
    | TestFailed(failure: Failure)
    | ConcurrentRunFailed(failure: Failure)
    | VersionListReadFailed(cause: string)
    | VersionListDecodeFailed(cause: string)

  /** The concurrency argument that asks for a sequential run. */
  const NoConcurrency := -1

  /** The concurrency argument `SpecCheck` passes: a platform-sized pool. */
  const DefaultConcurrency := 0

  const Latest := "latest"

  /** A version argument is the word `latest` or a Go-style semantic version. */
  predicate IsValidFormatVer(version: string) {
    version == Latest || SemVer.IsValid(version)
  }

  /** The accepted tokens are exactly `latest` and the renderings of well-formed versions. */
  lemma ValidFormatVerGrammar(version: string)
    ensures IsValidFormatVer(version) <==>
      version == Latest || exists v :: SemVer.WellFormed(v) && SemVer.Render(v) == version
  {
    SemVer.ValidIffRendered(version);
  }

  /** A token rendered from a well-formed version is accepted. */
  lemma RenderedIsValid(v: SemVer.Version, token: string)
    requires SemVer.WellFormed(v) && SemVer.Render(v) == token
    ensures IsValidFormatVer(token)
  {
    SemVer.ParseRender(v);
  }

  // The accepted test vectors. Each token is read as an explicit version
  // record, which is cheaper for the solver than unfolding the scanner.

  lemma AcceptsLatest()
    ensures IsValidFormatVer("latest")
  {
  }

  lemma AcceptsMajorMinor()
    ensures IsValidFormatVer("v0.14")
  {
    RenderedIsValid(SemVer.Version("0", Some("14"), None, [], []), "v0.14");
  }

  lemma AcceptsMajorMinorPatch()
    ensures IsValidFormatVer("v0.31.2")
  {
    RenderedIsValid(SemVer.Version("0", Some("31"), Some("2"), [], []), "v0.31.2");
  }

  lemma AcceptsZeroPatch()
    ensures IsValidFormatVer("v1.14.0")
  {
    RenderedIsValid(SemVer.Version("1", Some("14"), Some("0"), [], []), "v1.14.0");
  }

  lemma AcceptsMajorOnly()
    ensures IsValidFormatVer("v1")
  {
    RenderedIsValid(SemVer.Version("1", None, None, [], []), "v1");
  }

  lemma RefusesMissingPrefix()
    ensures !IsValidFormatVer("0.14")
    ensures !IsValidFormatVer("version 1.14")
    ensures !IsValidFormatVer("vvvv1.14")
  {
  }

  lemma RefusesTrailingNewline()
    ensures !IsValidFormatVer("v0.14\n")
  {
  }

  /** The name of the fixture file of a version. */
  function FixtureName(version: string): string {
    SpecFilePrefix + version + ".json"
  }

  /** The version a fixture file name belongs to, if it has the fixture shape. */
  function FixtureVersion(name: string): Option<string> {
    if |name| >= 10 && name[..5] == SpecFilePrefix && name[|name| - 5..] == ".json" then
      Some(name[5..|name| - 5])
    else
      None
  }

  /** Distinct versions seek distinct files: the version is recovered from the name. */
  lemma FixtureNameRoundTrip(version: string)
    ensures FixtureVersion(FixtureName(version)) == Some(version)
  {
  }

  /** A valid version has no path separator, so its fixture lies directly in the corpus directory. */
  lemma FixtureNameHasNoSeparator(version: string)
    requires IsValidFormatVer(version)
    ensures forall i :: 0 <= i < |FixtureName(version)| ==> FixtureName(version)[i] != '/'
  {
    if version != Latest {
      SemVer.ValidTokenChars(version);
    }
    var name := FixtureName(version);
    forall i | 0 <= i < |name|
      ensures name[i] != '/'
    {
      if 5 <= i < 5 + |version| {
        assert name[i] == version[i - 5];
      }
    }
  }

  /**
    Everything a check does before running an example: validate the version,
    read its fixture file, decode it. Each step's failure is final.
  */
  function LoadCases(store: Store, version: string): (r: Result<seq<TestCase>, Error>)
    ensures !IsValidFormatVer(version) ==> r == Err(InvalidVersionFormat(version))
    ensures IsValidFormatVer(version) && LoadFile(store, FixtureName(version)).Err? ==>
      r == Err(SpecFileNotFound(FixtureName(version), LoadFile(store, FixtureName(version)).error))
    ensures IsValidFormatVer(version) && LoadFile(store, FixtureName(version)).Ok? ==>
      var decoded := store.decodeCases(LoadFile(store, FixtureName(version)).value);
      && (decoded.Err? ==> r == Err(SpecDecodeFailed(decoded.error)))
      && (decoded.Ok? ==> r == Ok(decoded.value))
  {
    if !IsValidFormatVer(version) then Err(InvalidVersionFormat(version))
    else
      var name := FixtureName(version);
      match LoadFile(store, name)
      case Err(cause) => Err(SpecFileNotFound(name, cause))
      case Ok(json) =>
        match store.decodeCases(json)
        case Err(cause) => Err(SpecDecodeFailed(cause))
        case Ok(cases) => Ok(cases)
  }

  /** An invalid version is refused before the store is consulted: no store changes the answer. */
  lemma InvalidVersionIgnoresStore(a: Store, b: Store, version: string)
    requires !IsValidFormatVer(version)
    ensures LoadCases(a, version) == LoadCases(b, version) == Err(InvalidVersionFormat(version))
  {
  }

  /**
    A valid version reads one file only, `spec_<version>.json` in the corpus
    directory: stores that agree on that file and its decoding give the same answer.
  */
  lemma OnlyFixtureFileIsRead(a: Store, b: Store, version: string)
    requires IsValidFormatVer(version)
    requires a.readFile(SpecDir + "/spec_" + version + ".json") == b.readFile(SpecDir + "/spec_" + version + ".json")
    requires a.decodeCases == b.decodeCases
    ensures LoadCases(a, version) == LoadCases(b, version)
  {
    assert SpecPath(FixtureName(version)) == SpecDir + "/spec_" + version + ".json";
  }

  /** "v0.1" passes the format check although no fixture exists for it. */
  lemma AcceptsUnsupportedVersion()
    ensures IsValidFormatVer("v0.1")
  {
    RenderedIsValid(SemVer.Version("0", Some("1"), None, [], []), "v0.1");
  }

  /** Version `v0.1` has no fixture in a store without it; the error names `spec_v0.1.json`. */
  lemma UnsupportedVersionExample(store: Store)
    requires LoadFile(store, "spec_v0.1.json").Err?
    ensures LoadCases(store, "v0.1") ==
      Err(SpecFileNotFound("spec_v0.1.json", LoadFile(store, "spec_v0.1.json").error))
  {
    AcceptsUnsupportedVersion();
    assert FixtureName("v0.1") == "spec_v0.1.json";
  }

  /**
    Checks `f` against the examples of `version`. `maxConcurrency` is
    `NoConcurrency` for a sequential run; any other value runs every example
    concurrently. `inputs` lists the calls made to `f`, in the order made.
  */
  method SpecCheckWithConcurrency(store: Store, version: string, f: Converter, maxConcurrency: int)
    returns (r: Outcome<Error>, inputs: seq<string>)
    ensures !IsValidFormatVer(version) ==> r == Fail(InvalidVersionFormat(version)) && inputs == []
    ensures LoadCases(store, version).Err? ==> r == Fail(LoadCases(store, version).error) && inputs == []
    ensures LoadCases(store, version).Ok? ==>
      var cases := LoadCases(store, version).value;
      r.Pass? <==> AllPass(cases, f)
    ensures LoadCases(store, version).Ok? && maxConcurrency == NoConcurrency ==>
      var cases := LoadCases(store, version).value;
      var k := FirstFailure(cases, f);
      && (k < |cases| ==> r == Fail(TestFailed(RunSingleTest(cases[k], f).error)))
      && |inputs| == SequentialCalls(cases, f)
      && InFixtureOrder(inputs, cases)
    ensures LoadCases(store, version).Ok? && maxConcurrency != NoConcurrency ==>
      var cases := LoadCases(store, version).value;
      && multiset(inputs) == multiset(Inputs(cases))
      && (r.Fail? ==>
            exists k :: 0 <= k < |cases| && !Passes(cases[k], f) &&
              r == Fail(ConcurrentRunFailed(RunSingleTest(cases[k], f).error)))
  {
    match LoadCases(store, version)
    case Err(e) =>
      r := Fail(e);
      inputs := [];
    case Ok(cases) =>
      if maxConcurrency == NoConcurrency {
        var run := RunSequential(cases, f);
        r := if run.outcome.Pass? then Pass else Fail(TestFailed(run.outcome.error));
        inputs := run.inputs;
      } else {
        var verdict;
        verdict, inputs := RunConcurrently(cases, f);
        r := if verdict.Pass? then Pass else Fail(ConcurrentRunFailed(verdict.error));
      }
  }

  /** `SpecCheckWithConcurrency` with the default, concurrent, policy. */
  method SpecCheck(store: Store, version: string, f: Converter) returns (r: Outcome<Error>, inputs: seq<string>)
    ensures !IsValidFormatVer(version) ==> r == Fail(InvalidVersionFormat(version)) && inputs == []
    ensures LoadCases(store, version).Err? ==> r == Fail(LoadCases(store, version).error) && inputs == []
    ensures LoadCases(store, version).Ok? ==>
      var cases := LoadCases(store, version).value;
      && (r.Pass? <==> AllPass(cases, f))
      && multiset(inputs) == multiset(Inputs(cases))
      && (r.Fail? ==>
            exists k :: 0 <= k < |cases| && !Passes(cases[k], f) &&
              r == Fail(ConcurrentRunFailed(RunSingleTest(cases[k], f).error)))
  {
    r, inputs := SpecCheckWithConcurrency(store, version, f, DefaultConcurrency);
  }

  /**
    A function that fails on every input makes the check fail, in either
    mode, with a function error carrying that function's own message.
  */
  method CheckWithFailingFunction(store: Store, version: string, f: Converter, message: string, maxConcurrency: int)
    returns (r: Outcome<Error>, inputs: seq<string>)
    requires LoadCases(store, version).Ok? && |LoadCases(store, version).value| > 0
    requires forall md :: f(md).err == Some(message)
    ensures && r.Fail?
            && (r.error.TestFailed? || r.error.ConcurrentRunFailed?)
            && r.error.failure.FunctionError?
            && r.error.failure.cause == message
    ensures maxConcurrency == NoConcurrency ==> |inputs| == 1
  {
    var cases := LoadCases(store, version).value;
    assert !Passes(cases[0], f);
    r, inputs := SpecCheckWithConcurrency(store, version, f, maxConcurrency);
  }

  /**
    The default check of a function that always returns the same HTML, and
    never fails, reports a mismatch unless every example expects that HTML.
  */
  method CheckWithConstantOutput(store: Store, version: string, html: string)
    returns (r: Outcome<Error>, inputs: seq<string>)
    requires LoadCases(store, version).Ok?
    requires exists i :: 0 <= i < |LoadCases(store, version).value| && LoadCases(store, version).value[i].html != html
    ensures && r.Fail?
            && r.error.ConcurrentRunFailed?
            && r.error.failure.Mismatch?
            && r.error.failure.actual == html
            && r.error.failure.expected != html
  {
    var cases := LoadCases(store, version).value;
    var i :| 0 <= i < |cases| && cases[i].html != html;
    assert !Passes(cases[i], md => Output(html, None));
    r, inputs := SpecCheck(store, version, md => Output(html, None));
  }

  /** The `version` fields of the index rows, in index order. */
  function Versions(index: seq<IndexEntry>): (vs: seq<string>)
    ensures |vs| == |index|
    ensures forall i :: 0 <= i < |index| ==> vs[i] == index[i].version
  {
    if |index| == 0 then [] else [index[0].version] + Versions(index[1..])
  }

  /**
    Lists the versions of the index file in its own order, or fails when the
    file cannot be read or decoded, returning no list.
  */
  function ListVersion(store: Store): (r: Result<seq<string>, Error>)
    ensures LoadFile(store, SpecListFile).Err? ==>
      r == Err(VersionListReadFailed(LoadFile(store, SpecListFile).error))
    ensures LoadFile(store, SpecListFile).Ok? ==>
      var decoded := store.decodeIndex(LoadFile(store, SpecListFile).value);
      && (decoded.Err? ==> r == Err(VersionListDecodeFailed(decoded.error)))
      && (decoded.Ok? ==>
            && r.Ok?
            && |r.value| == |decoded.value|
            && forall i :: 0 <= i < |decoded.value| ==> r.value[i] == decoded.value[i].version)
  {
    match LoadFile(store, SpecListFile)
    case Err(cause) => Err(VersionListReadFailed(cause))
    case Ok(json) =>
      match store.decodeIndex(json)
      case Err(cause) => Err(VersionListDecodeFailed(cause))
      case Ok(index) => Ok(Versions(index))
  }
}
