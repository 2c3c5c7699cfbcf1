# Fact-check client: a Dafny model

The system is a single-page client. It sends a user's claim to a hosted language model with a fact-checking prompt. It turns the model's reply into a `FactCheckResult` and shows it on a result card. The model covers the four pieces of logic in the client:

- **Reply handling in `verifyClaim`** (`GeminiService`, `FenceRegex`, `JsString`):
  - the API key check;
  - the user prompt;
  - the trim of the reply;
  - the match of ``/```(json)?\s*([\s\S]*?)\s*```/`` that cuts a fenced block out of it;
  - the fallback to the whole trimmed text when the captured body is empty;
  - the collapse of every parse failure into one error.

  The regex is modelled three ways, and the three are proved to agree:
  - `SearchFrom`/`RegexMatch` follow the order in which a backtracking engine tries the alternatives;
  - `LeftmostMatch` computes the match directly;
  - `IsMatchAt`/`IsLeftmostMatch` describe it declaratively.

  `trim` and `\s` share one whitespace set, `JsString.IsSpace`: the WhiteSpace and LineTerminator code points of ECMA-262, sections 12.2 and 12.3.
- **The request lifecycle of `App`** (`App`): a class `AppState` holds the four state cells `claim`, `result`, `isLoading` and `error`.
  - `handleSubmit` is split into `BeginSubmit` (up to the request) and `FinishSubmit` (the outcome of `verifyClaim` as an input). `HandleSubmit` is both steps together.
  - `HandleClear` and `HandleExampleClick` are the other transitions.
  - `Dispatch` applies one UI event behind the guards of the input controls.
- **The input guards** (`ClaimInput`): what Enter does, and when the submit button, the clear button and the textarea are usable.
- **The result card** (`ResultCard`):
  - the verdict style;
  - the resolution of each `Source | string` entry;
  - when the sources and snippet blocks appear;
  - the clipboard text, with a partial inverse and a proof that it is ambiguous.

`Types` mirrors `types.ts`. `Wrappers` holds `Option` and `Result`.

`JSON.parse` is the parameter `parse: string -> Option<V>`. The model call is the parameter `call: string -> Reply`.

## Where the code and a natural reading of the controller differ

The controller reads naturally as keeping at most one of `result` and `error` non-null. The code does not keep that:

- The Enter key submits whenever no request is pending, even for a blank claim (`components/ClaimInput.tsx:15-19`).
- The blank path of `handleSubmit` sets the validation message and leaves `result` in place (`App.tsx:27-30`).

`App.StaleResultBesideError` builds that state by calling the transitions in the order the controls allow, asserting the guard of each control before its call. The model follows the code. Its invariant `AppState.Valid` allows the two together only as the validation message beside a stale result. `HandleSubmit` proves that after a non-blank submit at most one of them is set.

A non-blank submit can also end with neither. `verifyClaim` returns whatever `JSON.parse` gives (`services/geminiService.ts:47-48`). For a reply such as `null`, `false`, `0` or `""` that value is falsy. `App.tsx:38` stores it, `App.tsx:81` shows no card for it (for `0`, React prints the digit in its place), and no error is set. The model writes such a value as `Success(None)`, and `HandleSubmit` states that it leaves both `result` and `error` empty.

A reply that is exactly a valid JSON object does not always parse. The regex finds fences anywhere, inside JSON strings too (`services/geminiService.ts:41-45`). For the reply `{"a":"```x```"}` the text handed to `JSON.parse` is `x`, which `JSON.parse` refuses. `GeminiService.FenceInsideJsonString` proves the extraction.

## Model

| member | source | states |
|---|---|---|
| JsString.IsSpaceAscii | services/geminiService.ts:40-41 | the whitespace set shared by `trim` and `\s` is, within ASCII, exactly the space and tab through carriage return |
| JsString.Trim | services/geminiService.ts:40 | the result has no whitespace at either end, and it is empty iff the input is all whitespace |
| JsString.TrimIsTrimOf | services/geminiService.ts:40 | the result is a slice of the input with only whitespace before and after it and none at its own ends |
| JsString.TrimOfIsTrim | services/geminiService.ts:40 | the trim is unique: any slice described as a trim of s is `Trim(s)` |
| JsString.TrimIs | services/geminiService.ts:40 | the trim is the slice between the whitespace at the front and the whitespace at the back |
| JsString.TrimIdempotent | services/geminiService.ts:40 | trimming twice is trimming once |
| JsString.TrimAround | services/geminiService.ts:40 | around a middle that starts and ends with visible characters, trim removes only leading whitespace of the front part and trailing whitespace of the back part |
| JsString.TrimPadded | services/geminiService.ts:40 | whitespace added on both sides of a text does not change its trim |
| JsString.TrimOfTrimmed | services/geminiService.ts:40 | a text with visible characters at both ends is its own trim |
| JsString.BeforeFirst | App.tsx:73 | the first piece of `split(sep)`: a prefix containing no separator that ends at the end of the text or at a separator |
| JsString.BeforeFirstOfJoin | App.tsx:73 | the first piece of `a + sep + b` is `a` when `a` holds no separator |
| FenceRegex.RegexMatch | services/geminiService.ts:41 | the regex match in the order a backtracking engine tries it (leftmost fence, optional json, greedy whitespace, lazy body, whitespace, fence); a match has its body inside the text |
| FenceRegex.FirstFence | services/geminiService.ts:41 | the first fence at or after a position, or none |
| FenceRegex.MatchAt | services/geminiService.ts:41 | the match that opens at a fence with a later fence: its closing fence is the first fence from the body start |
| FenceRegex.MatchAtIsMatch | services/geminiService.ts:41 | the direct match satisfies the declarative description of a match |
| FenceRegex.LeftmostMatch | services/geminiService.ts:41 | there is a match iff the text has a fence with another fence at least three characters later, and the match is the declaratively described one at the leftmost fence |
| FenceRegex.CloseAfterIsRunEnd | services/geminiService.ts:41 | the engine's closing step (trailing `\s*` then the fence) succeeds exactly at the end of a whitespace run that a fence follows |
| FenceRegex.LazyBodyIsFirstFence | services/geminiService.ts:41 | the lazy body stops at the whitespace before the first fence at or after the body start |
| FenceRegex.SpaceThenBodyIsFirstFence | services/geminiService.ts:41 | backtracking into the greedy `\s*` finds nothing the first attempt missed |
| FenceRegex.AfterOpenIsMatchAt | services/geminiService.ts:41 | from an opening fence, the engine's attempt succeeds iff a fence follows it, and gives the direct match |
| FenceRegex.AfterOpenTagged | services/geminiService.ts:41 | when json follows the fence, the attempt with the json group succeeds whenever the one without it would |
| FenceRegex.SearchFromIsClosedFrom | services/geminiService.ts:41 | moving the start of the attempt forward gives the same result as the direct computation |
| FenceRegex.RegexMatchIsLeftmost | services/geminiService.ts:41 | the engine-order match equals the directly computed leftmost match |
| FenceRegex.FirstFenceIs | services/geminiService.ts:41 | a fence with no fence between k and it is the first fence from k |
| FenceRegex.CloseIsNextFence | services/geminiService.ts:41 | in a described match the closing fence is the first fence from the body start |
| FenceRegex.MatchAtIsDescribed | services/geminiService.ts:41 | a described match at a fence is the direct match there |
| FenceRegex.LeftmostMatchComplete | services/geminiService.ts:41 | any match satisfying the declarative leftmost description is the one the regex returns |
| FenceRegex.TagRemainder | services/geminiService.ts:41 | the group `(json)?` removes a leading lower-case json and nothing else |
| FenceRegex.FencedIsLeftmost | services/geminiService.ts:41 | in a reply of the form ``pre ``` tag \n payload \n ``` rest``, the block is the leftmost match |
| FenceRegex.FencedBody | services/geminiService.ts:41 | the captured body of that block is the payload, preceded by the tag minus json and a newline when that remainder is not empty |
| FenceRegex.RegexMatchFacts | services/geminiService.ts:41-43 | the regex matches iff there is a fence pair, and a captured body starts, and ends when non-empty, with a visible character |
| FenceRegex.FencedBlockMatch | services/geminiService.ts:41 | the regex returns that block whatever text comes after it, a second fenced block included |
| FenceRegex.EmptyBlockMatch | services/geminiService.ts:41 | a block holding only whitespace, tagged json or untagged, is matched with an empty body |
| GeminiService.Extract | services/geminiService.ts:40-45 | the text handed to `JSON.parse`: it has no whitespace at either end; it is empty iff the reply is whitespace only; without a fence pair it is the trimmed reply |
| GeminiService.ExtractIsDescribed | services/geminiService.ts:40-45 | for the leftmost match of the trimmed reply, the extracted text is its body when non-empty, else the trimmed reply |
| GeminiService.ExtractIgnoresPadding | services/geminiService.ts:40 | whitespace around the reply never reaches the parser |
| GeminiService.TrimFenced | services/geminiService.ts:40 | trimming a reply around a fenced block trims only the text before and after it |
| GeminiService.ExtractFenced | services/geminiService.ts:39-45 | a fenced payload is what gets parsed: a json tag is dropped, any other tag stays in front, and later blocks are ignored |
| GeminiService.ExtractBlock | services/geminiService.ts:39-45 | a reply that is only a fenced block extracts to the payload, after the tag minus json when that remainder is not empty |
| GeminiService.ExtractKeepsUppercaseTag | services/geminiService.ts:41 | a JSON tag in capitals stays at the start of the extracted text |
| GeminiService.ExtractRoundTrip | services/geminiService.ts:39-45 | a payload fenced as json and the bare payload both extract to the payload |
| GeminiService.ExtractEmptyBlock | services/geminiService.ts:43 | an empty fenced block falls back to the whole trimmed reply |
| GeminiService.UserPrompt | services/geminiService.ts:27 | the prompt is the fixed lead text followed by the claim verbatim inside double quotes |
| GeminiService.ApiKeySet | services/geminiService.ts:21 | the key counts as missing exactly when it is unset or the empty string |
| GeminiService.ErrorMessage | services/geminiService.ts:21-52 | the two fixed messages; an error from the model call passes through unchanged. These messages never reach the user: `App` shows its own fixed failure message for every error (`App.tsx:41`) |
| GeminiService.ParseReply | services/geminiService.ts:38-51 | every failure, including a missing text, becomes the one parse error; a success is what `JSON.parse` returned for the extracted text, unchecked |
| GeminiService.VerifyClaim | services/geminiService.ts:20-52 | an unset or empty key fails with the key error iff the key is missing, so no request is sent; a rejected call fails with the call's own detail, unchanged; with a key and a response, the result is exactly the reply handling of `ParseReply`, so a successful parse of the extracted text is returned |
| GeminiService.FenceInsideJsonString | services/geminiService.ts:40-45 | a bare JSON object whose string value holds a fence pair is cut down to the text between the fences |
| GeminiService.ProseReplyUnparseable | services/geminiService.ts:47-51 | a reply without backticks that the parser refuses ends in the parse error |
| GeminiService.VerifyClaimFenceTransparent | services/geminiService.ts:39-45 | a model that fences its JSON and one that does not lead to the same result |
| Types.Verdict.Label | types.ts:1-5 | each verdict's string value, non-empty |
| Types.ParseVerdict | types.ts:1-5 | the verdict whose string value is given, and none when no verdict has it |
| Types.LabelInjective | types.ts:1-5 | the three string values are pairwise different |
| Types.ParseLabel | types.ts:1-5 | reading back a verdict's string gives the verdict |
| ClaimInput.HandleKeyDown | components/ClaimInput.tsx:14-21 | Enter without Shift suppresses the newline, even while loading, and submits iff not loading; no other key submits |
| ClaimInput.Blank | App.tsx:27 | `!claim.trim()` holds exactly when the claim is whitespace only |
| ClaimInput.TextareaEnabled | components/ClaimInput.tsx:31 | the textarea is editable exactly when Enter in it submits, that is when no request is pending |
| ClaimInput.SubmitDisabled | components/ClaimInput.tsx:45 | the submit button is disabled iff loading or the claim is whitespace only |
| ClaimInput.ClearVisible | components/ClaimInput.tsx:34 | the clear button is hidden while loading or for an empty claim; a whitespace-only claim shows it while submit is disabled |
| ClaimInput.EnterSubmitsBlankClaim | components/ClaimInput.tsx:15-45 | Enter submits a blank claim that the submit button refuses |
| ResultCard.GetVerdictStyles | components/ResultCard.tsx:13-44 | each exact verdict string gets its style; every other string gets the gray default; the check icon appears iff the verdict is True, the x icon iff it is False |
| ResultCard.NearVariantIsDefault | components/ResultCard.tsx:14-42 | "True/Verified" gets the default style, whose icon is Misleading's although the style differs |
| ResultCard.ResolveSource | components/ResultCard.tsx:83-87 | a bare string is title and url with no snippet; a record gives its own fields; it is a link iff the url starts with "http" |
| ResultCard.BareIsRecord | components/ResultCard.tsx:83-86 | a bare string is shown as the record with that string as title and url and no snippet |
| ResultCard.LinkIsPrefixTest | components/ResultCard.tsx:87 | "httpfoo" links, "HTTPS://x" does not |
| ResultCard.ResolveSources | components/ResultCard.tsx:82-106 | one entry per source, in order, each resolved on its own |
| ResultCard.ResolveSourcesAppend | components/ResultCard.tsx:82-106 | resolving a concatenation is concatenating the resolutions |
| ResultCard.SourcesShown | components/ResultCard.tsx:78 | the sources section appears iff there is at least one entry to show |
| ResultCard.SnippetShown | components/ResultCard.tsx:99 | the snippet block appears iff the snippet is present and non-empty |
| ResultCard.BareHasNoSnippet | components/ResultCard.tsx:86-99 | a bare-string source never shows a snippet |
| ResultCard.CopyText | components/ResultCard.tsx:52 | for every result, the text is the template pieces and the claim, verdict and explanation verbatim, slice by slice, with nothing escaped |
| ResultCard.CopyTextIgnores | components/ResultCard.tsx:52 | confidence and sources do not affect the copied text |
| ResultCard.ReadCopyText | components/ResultCard.tsx:52 | reads claim, verdict and explanation back out of a text in the copy template |
| ResultCard.CopyTextRoundTrip | components/ResultCard.tsx:52 | without a double quote in the claim and a newline in the verdict, the copied text gives the three fields back |
| ResultCard.CopyTextAmbiguous | components/ResultCard.tsx:52 | without escaping, two different results copy to the same text |
| App.ExampleLabel | App.tsx:73 | the label is the text before the first colon, or the whole prompt without one, followed by "..." |
| App.ExampleLabelOf | App.tsx:73 | the label of `head + ":" + tail` is `head...` when head holds no colon |
| App.AppState.constructor | App.tsx:11-14 | the empty claim, no result, not loading, no error |
| App.AppState.SetClaim | components/ClaimInput.tsx:27 | an edit replaces the claim and nothing else |
| App.AppState.HandleExampleClick | App.tsx:22-24 | an example replaces the claim and nothing else |
| App.AppState.BeginSubmit | App.tsx:26-34 | a blank claim only sets the validation message, keeping result, loading and claim; otherwise loading starts, result and error are cleared and the untrimmed claim is the request |
| App.AppState.FinishSubmit | App.tsx:36-44 | success stores the parsed value, a falsy one as no result; failure sets the fixed message; loading ends either way |
| App.AppState.HandleSubmit | App.tsx:26-45 | after a non-blank submit, loading has ended and exactly the outcome of verifying the untrimmed claim is shown, never both result and error; a falsy parsed value leaves neither |
| App.AppState.HandleClear | App.tsx:47-51 | claim, result and error are reset; loading is unchanged |
| App.AppState.Dispatch | App.tsx:58-75 | every guarded event keeps the invariant; a request is made only for a non-blank claim and starts loading; while loading, nothing but the settling of the request changes the state |
| App.StaleResultBesideError | App.tsx:27-30 | a reachable state shows a result and the validation message together |

## Left out

- The model client: `GoogleGenAI`, `generateContent`, the model name and the search tool (services/geminiService.ts:24-36). These are network calls into a foreign library; the reply is the parameter `call`.
- `JSON.parse`, taken as the opaque partial function `parse`. The cast `as FactCheckResult` performs no check. `App` tells apart only a falsy value, which shows no result card, and a truthy one; a truthy value is modelled as a `FactCheckResult`, and what the card shows for a truthy value of another shape is not modelled.
- The system instruction text (services/geminiService.ts:4-18): a constant with no behaviour.
- `console.error` logging (App.tsx:40, services/geminiService.ts:50, components/ResultCard.tsx:57).
- The clipboard write, the `isCopied` flag and its 2000 ms timer (components/ResultCard.tsx:49,53-58): a browser API and a timer.
- JSX markup, CSS classes, the header and the loading spinner: presentation only.
- Interleaving of `async` work. `handleSubmit` is two sequential steps. A settle is accepted only while a request is pending, which is what the guards ensure when nothing runs concurrently. Two overlapping requests are not modelled.
- The numeric reply `0`: `App.tsx:81` evaluates `result && …` to 0 and React prints "0" where the card would be. The model records only that no card is shown.
- App.AppState.Dispatch: its contract states only the invariant, the request and the frozen state while loading. The new state after each event is stated by the methods it calls.
- `sources` or a source's `url` missing at run time. `types.ts` declares both required, and the model follows it. The card's `sources &&` test is dropped. Its `url &&` test is kept in `ResolveSource` to mirror `components/ResultCard.tsx:87`, although it decides nothing: the prefix test alone already fails on the empty url.
- Strings are sequences of code points, not UTF-16 code units. Characters outside the Basic Multilingual Plane count once, not twice.
- The API key is an `Option<string>`. `process.env.API_KEY` is falsy when unset or empty, and `ApiKeySet` says exactly that.
