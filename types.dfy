/** The records of types.ts. */
module Types {
  import opened Wrappers

  /** The three verdicts the model is asked to give. */
  datatype Verdict = True | Misleading | False {
    /** The string value each enum member stands for. */
    function Label(): (s: string)
      ensures |s| > 0
    {
      match this
      case True => "True / Verified"
      case Misleading => "Misleading / Needs Context"
      case False => "False / Fake"
    }
  }

  /** The enum member whose string value is s, if any. */
  function ParseVerdict(s: string): (r: Option<Verdict>)
    ensures r.Some? ==> r.value.Label() == s
    ensures r.None? ==> forall v: Verdict :: v.Label() != s
  {
    if s == True.Label() then Some(True)
    else if s == Misleading.Label() then Some(Misleading)
    else if s == False.Label() then Some(False)
    else None
  }

  /** Different verdicts have different strings, so a string names at most one verdict. */
  lemma LabelInjective(v: Verdict, w: Verdict)
    requires v.Label() == w.Label()
    ensures v == w
  {
  }

  lemma ParseLabel(v: Verdict)
    ensures ParseVerdict(v.Label()) == Some(v)
  {
    LabelInjective(ParseVerdict(v.Label()).value, v);
  }

  datatype Source = Source(title: string, url: string, snippet: Option<string>)

  /** An element of sources: a record, or a bare string. */
  datatype SourceItem = Structured(source: Source) | Bare(text: string)

  /** The parsed reply. verdict and confidence are open strings. */
  datatype FactCheckResult = FactCheckResult(
    claim: string,
    verdict: string,
    explanation: string,
    sources: seq<SourceItem>,
    confidence: string)
}
