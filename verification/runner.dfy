/** Running one conformance example against the caller's conversion function. */
module Runner {
  import opened Wrappers
  import opened Decimal
  import opened Fixtures

  /**
    What the caller's function returns for one Markdown input: the HTML it
    produced and, when it failed, its error message. Both are present at
    once, as with a Go `(string, error)` pair.
  */
  datatype Output = Output(html: string, err: Option<string>)

  type Converter = string -> Output

  /** Why an example failed; every variant carries the example's identifier. */
  datatype Failure =
    | FunctionError(name: string, markdown: string, expected: string, actual: string, cause: string)
    | Mismatch(name: string, markdown: string, expected: string, actual: string)

  /** `Pass`, or the failure of one example. */
  type Verdict = Outcome<Failure>

  /** The diagnostic identifier `<example>_<section>` of an example. */
  function TestName(tc: TestCase): string {
    FormatInt(tc.exampleNum) + "_" + tc.section
  }

  /** Position of the first `c` in `s`, or `|s|` when there is none. */
  function IndexOf(s: string, c: char): (i: nat)
    ensures i <= |s|
    ensures i < |s| ==> s[i] == c
    ensures forall j :: 0 <= j < i ==> s[j] != c
  {
    if |s| == 0 then 0 else if s[0] == c then 0 else 1 + IndexOf(s[1..], c)
  }

  /** Reads an identifier back into its example number and section. */
  function SplitTestName(name: string): Option<(int, string)> {
    var i := IndexOf(name, '_');
    if i == |name| then None
    else match ParseInt(name[..i])
      case None => None
      case Some(n) => Some((n, name[i + 1..]))
  }

  /** The identifier names its example unambiguously, even when the section contains `_`. */
  lemma TestNameRoundTrip(tc: TestCase)
    ensures SplitTestName(TestName(tc)) == Some((tc.exampleNum, tc.section))
  {
    var num := FormatInt(tc.exampleNum);
    var name := TestName(tc);
    assert name[|num|] == '_';
    assert forall j :: 0 <= j < |num| ==> name[j] == num[j] && name[j] != '_';
    assert IndexOf(name, '_') == |num|;
    assert name[..|num|] == num;
    assert name[|num| + 1..] == tc.section;
    FormatIntRoundTrip(tc.exampleNum);
  }

  /** Examples with distinct numbers, or distinct sections, get distinct identifiers. */
  lemma TestNameInjective(a: TestCase, b: TestCase)
    requires TestName(a) == TestName(b)
    ensures a.exampleNum == b.exampleNum && a.section == b.section
  {
    TestNameRoundTrip(a);
    TestNameRoundTrip(b);
  }

  /** Example 1 of section "Tabs" is reported as `1_Tabs`. */
  lemma TabsExampleName(markdown: string, html: string, startLine: int, endLine: int)
    ensures TestName(TestCase(markdown, html, "Tabs", startLine, endLine, 1)) == "1_Tabs"
  {
  }

  /**
    The verdict of one example: a failing function gives a function error
    whatever text it returned; otherwise the example passes exactly when the
    returned HTML equals the expected HTML, with no normalisation.
  */
  function RunSingleTest(tc: TestCase, f: Converter): (v: Verdict)
    ensures v.Pass? <==> f(tc.markdown) == Output(tc.html, None)
    ensures v.Fail? ==> (v.error.FunctionError? <==> f(tc.markdown).err.Some?)
    ensures v.Fail? ==>
      && v.error.name == TestName(tc)
      && v.error.markdown == tc.markdown
      && v.error.expected == tc.html
      && v.error.actual == f(tc.markdown).html
    ensures v.Fail? && v.error.FunctionError? ==> v.error.cause == f(tc.markdown).err.value
  {
    var out := f(tc.markdown);
    var name := TestName(tc);
    if out.err.Some? then
      Fail(FunctionError(name, tc.markdown, tc.html, out.html, out.err.value))
    else if tc.html != out.html then
      Fail(Mismatch(name, tc.markdown, tc.html, out.html))
    else
      Pass
  }
}
