/**
 * The pure logic of components/ResultCard.tsx: the style chosen for a
 * verdict, the resolution of each source, when the sources and snippet
 * blocks appear, and the text put on the clipboard.
 */
module ResultCard {
  import opened Wrappers
  import opened JsString
  import opened Types

  datatype Icon = CheckIcon | WarningIcon | XIcon

  datatype VerdictStyle = VerdictStyle(bgColor: string, borderColor: string, textColor: string, icon: Icon)

  /** The style of each known verdict. */
  function StyleOf(v: Verdict): VerdictStyle {
    match v
    case True => VerdictStyle("bg-green-900/50", "border-green-500", "text-green-400", CheckIcon)
    case Misleading => VerdictStyle("bg-yellow-900/50", "border-yellow-500", "text-yellow-400", WarningIcon)
    case False => VerdictStyle("bg-red-900/50", "border-red-500", "text-red-400", XIcon)
  }

  /** The style of every other string. */
  const DefaultStyle := VerdictStyle("bg-gray-800", "border-gray-600", "text-gray-400", WarningIcon)

  /**
   * getVerdictStyles: a switch on exact string equality with the three
   * enum values, and a gray default for every other string.
   */
  function GetVerdictStyles(verdict: string): (s: VerdictStyle)
    ensures forall v: Verdict :: verdict == v.Label() ==> s == StyleOf(v)
    ensures (forall v: Verdict :: verdict != v.Label()) ==> s == DefaultStyle
    ensures s.icon == CheckIcon <==> verdict == True.Label()
    ensures s.icon == XIcon <==> verdict == False.Label()
  {
    match ParseVerdict(verdict)
    case Some(v) => LabelInjectiveAll(v); StyleOf(v)
    case None => DefaultStyle
  }

  lemma LabelInjectiveAll(v: Verdict)
    ensures forall w: Verdict :: w.Label() == v.Label() ==> w == v
  {
    forall w: Verdict | w.Label() == v.Label() ensures w == v {
      LabelInjective(w, v);
    }
  }

  /** A near variant of a verdict string falls to the default, which shares Misleading's icon. */
  lemma NearVariantIsDefault()
    ensures GetVerdictStyles("True/Verified") == DefaultStyle
    ensures DefaultStyle.icon == StyleOf(Misleading).icon && DefaultStyle != StyleOf(Misleading)
  {
  }

  // ---------------------------------------------------------------------
  // Sources

  /** What the card shows for one source. */
  datatype ResolvedSource = ResolvedSource(title: string, url: string, isLink: bool, snippet: Option<string>)

  /**
   * One element of sources.map: a bare string is both title and url and
   * has no snippet; the title is a link when the url starts with the
   * case-sensitive prefix http. The `url &&` test of the source is kept,
   * although the prefix test alone already fails on the empty url.
   */
  function ResolveSource(item: SourceItem): (r: ResolvedSource)
    ensures item.Bare? ==> r.title == item.text && r.url == item.text && r.snippet == None
    ensures item.Structured? ==>
      r.title == item.source.title && r.url == item.source.url && r.snippet == item.source.snippet
    ensures r.isLink <==> StartsWith(r.url, "http")
  {
    var url := if item.Bare? then item.text else item.source.url;
    var title := if item.Bare? then item.text else item.source.title;
    var snippet := if item.Bare? then None else item.source.snippet;
    ResolvedSource(title, url, url != [] && StartsWith(url, "http"), snippet)
  }

  /** A bare string is shown as the record with that string as title and url and no snippet. */
  lemma BareIsRecord(s: string)
    ensures ResolveSource(Bare(s)) == ResolveSource(Structured(Source(s, s, None)))
  {
  }

  /** The link test is a case-sensitive prefix test and nothing more. */
  lemma LinkIsPrefixTest()
    ensures ResolveSource(Bare("httpfoo")).isLink
    ensures !ResolveSource(Bare("HTTPS://x")).isLink
  {
    assert "httpfoo"[..4] == "http";
    assert "HTTPS://x"[..4][0] != "http"[0];
  }

  /** sources.map: one entry per element, in order, each resolved on its own. */
  function ResolveSources(items: seq<SourceItem>): (rs: seq<ResolvedSource>)
    ensures |rs| == |items|
    ensures forall i :: 0 <= i < |items| ==> rs[i] == ResolveSource(items[i])
  {
    if items == [] then [] else [ResolveSource(items[0])] + ResolveSources(items[1..])
  }

  /** Resolving a concatenation resolves the parts: no element depends on another. */
  lemma ResolveSourcesAppend(a: seq<SourceItem>, b: seq<SourceItem>)
    ensures ResolveSources(a + b) == ResolveSources(a) + ResolveSources(b)
  {
    var l, r := ResolveSources(a + b), ResolveSources(a) + ResolveSources(b);
    assert forall i :: 0 <= i < |l| ==> l[i] == r[i] by {
      forall i | 0 <= i < |l| ensures l[i] == r[i] {
        if i < |a| { assert (a + b)[i] == a[i]; } else { assert (a + b)[i] == b[i - |a|]; }
      }
    }
  }

  /** The sources section appears when there is at least one source. */
  function SourcesShown(sources: seq<SourceItem>): (shown: bool)
    ensures shown <==> |ResolveSources(sources)| > 0
  {
    |sources| > 0
  }

  /** The snippet block appears for a present, non-empty snippet. */
  function SnippetShown(r: ResolvedSource): (shown: bool)
    ensures shown ==> r.snippet.Some?
    ensures r.snippet.Some? && r.snippet.value == [] ==> !shown
    ensures r.snippet.Some? && r.snippet.value != [] ==> shown
  {
    r.snippet.Some? && r.snippet.value != []
  }

  /** A bare-string source never shows a snippet. */
  lemma BareHasNoSnippet(s: string)
    ensures !SnippetShown(ResolveSource(Bare(s)))
  {
  }

  // ---------------------------------------------------------------------
  // Copy text

  const ClaimHead := "Claim: \""
  const VerdictHead := "\"\n\nVerdict: "
  const ExplanationHead := "\n\nExplanation: "

  /** handleCopy's text: claim, verdict and explanation spliced into a template, unescaped. */
  function CopyText(r: FactCheckResult): (s: string)
    ensures |s| == |ClaimHead| + |r.claim| + |VerdictHead| + |r.verdict| + |ExplanationHead| + |r.explanation|
    ensures StartsWith(s, ClaimHead)
    ensures s[|ClaimHead|..|ClaimHead| + |r.claim|] == r.claim
    ensures s[|ClaimHead| + |r.claim|..|ClaimHead| + |r.claim| + |VerdictHead|] == VerdictHead
    ensures s[|ClaimHead| + |r.claim| + |VerdictHead|..|s| - |ExplanationHead| - |r.explanation|] == r.verdict
    ensures s[|s| - |ExplanationHead| - |r.explanation|..|s| - |r.explanation|] == ExplanationHead
    ensures s[|s| - |r.explanation|..] == r.explanation
  {
    ClaimHead + (r.claim + (VerdictHead + (r.verdict + (ExplanationHead + r.explanation))))
  }

  /** Confidence and sources play no part in the copied text. */
  lemma CopyTextIgnores(r: FactCheckResult, confidence: string, sources: seq<SourceItem>)
    ensures CopyText(r.(confidence := confidence, sources := sources)) == CopyText(r)
  {
  }

  /**
   * Reading the three fields back from a copied text: the claim runs to
   * the first double quote, the verdict to the first newline after it.
   */
  function ReadCopyText(s: string): (fields: Option<(string, string, string)>)
    ensures fields.Some? ==> StartsWith(s, ClaimHead) && '"' !in fields.value.0 && '\n' !in fields.value.1
  {
    if !StartsWith(s, ClaimHead) then None
    else
      var afterHead := s[|ClaimHead|..];
      var claim := BeforeFirst(afterHead, '"');
      match ReadAfterClaim(afterHead[|claim|..])
      case None => None
      case Some((verdict, explanation)) => Some((claim, verdict, explanation))
  }

  /** The verdict and explanation read from the text after the claim. */
  function ReadAfterClaim(s: string): (fields: Option<(string, string)>)
    ensures fields.Some? ==> StartsWith(s, VerdictHead) && '\n' !in fields.value.0
  {
    if !StartsWith(s, VerdictHead) then None
    else
      var afterHead := s[|VerdictHead|..];
      var verdict := BeforeFirst(afterHead, '\n');
      var rest := afterHead[|verdict|..];
      if !StartsWith(rest, ExplanationHead) then None
      else Some((verdict, rest[|ExplanationHead|..]))
  }

  lemma ReadAfterClaimRoundTrip(verdict: string, explanation: string)
    requires '\n' !in verdict
    ensures ReadAfterClaim(VerdictHead + (verdict + (ExplanationHead + explanation))) == Some((verdict, explanation))
  {
    var rest := ExplanationHead + explanation;
    DropPrefix(VerdictHead, verdict + rest);
    NextSeparator(verdict, '\n', rest);
  }

  /** With no double quote in the claim and no newline in the verdict, the copy text gives the fields back. */
  lemma CopyTextRoundTrip(r: FactCheckResult)
    requires '"' !in r.claim && '\n' !in r.verdict
    ensures ReadCopyText(CopyText(r)) == Some((r.claim, r.verdict, r.explanation))
  {
    var tail := VerdictHead + (r.verdict + (ExplanationHead + r.explanation));
    DropPrefix(ClaimHead, r.claim + tail);
    NextSeparator(r.claim, '"', tail);
    ReadAfterClaimRoundTrip(r.verdict, r.explanation);
  }

  lemma DropPrefix(a: string, b: string)
    ensures (a + b)[|a|..] == b
  {
  }

  /** In a + rest, where rest starts with sep and a holds none, the text before sep is a and after it is rest. */
  lemma NextSeparator(a: string, sep: char, rest: string)
    requires sep !in a && rest != [] && rest[0] == sep
    ensures BeforeFirst(a + rest, sep) == a
    ensures (a + rest)[|a|..] == rest
  {
    assert a + rest == a + [sep] + rest[1..];
    BeforeFirstOfJoin(a, sep, rest[1..]);
  }

  /**
   * Without escaping, two different results copy to the same text: the
   * explanation header can sit in the verdict or in the explanation.
   */
  lemma CopyTextAmbiguous(claim: string, verdict: string, x: string, y: string, confidence: string,
                          sources: seq<SourceItem>)
    ensures var r1 := FactCheckResult(claim, verdict + ExplanationHead + x, y, sources, confidence);
      var r2 := FactCheckResult(claim, verdict, x + ExplanationHead + y, sources, confidence);
      r1 != r2 && CopyText(r1) == CopyText(r2)
  {
    var r1 := FactCheckResult(claim, verdict + ExplanationHead + x, y, sources, confidence);
    assert |r1.verdict| > |verdict|;
    assert (verdict + ExplanationHead + x) + (ExplanationHead + y) == verdict + (ExplanationHead + (x + ExplanationHead + y));
  }
}
