/**
 * The regular expression /```(json)?\s*([\s\S]*?)\s*```/ with which
 * services/geminiService.ts cuts a fenced block out of the model's reply,
 * under the leftmost, backtracking semantics of a JavaScript match without
 * the g flag.
 *
 * Three views of the same match are given and proved to agree:
 *  - SearchFrom and its helpers follow the engine's order of attempts
 *    (start positions left to right; the json group first taken, then
 *    skipped; greedy \s* from longest to shortest; the lazy body from
 *    shortest to longest);
 *  - LeftmostMatch computes the match directly from first-occurrence
 *    searches;
 *  - IsLeftmostMatch describes the match declaratively.
 */
module FenceRegex {
  import opened Wrappers
  import opened JsString

  /**
   * A successful match: where the opening fence starts, whether the optional
   * group (json) took part, the bounds of capture group 2 (the body) and
   * where the closing fence starts.
   */
  datatype Match = Match(open: nat, tagged: bool, bodyStart: nat, bodyEnd: nat, close: nat)

  /** Three backticks start at i. */
  predicate FenceAt(t: string, i: nat) {
    i + 3 <= |t| && t[i] == '`' && t[i + 1] == '`' && t[i + 2] == '`'
  }

  /** The lower-case word json starts at i. */
  predicate JsonAt(t: string, i: nat) {
    i + 4 <= |t| && t[i] == 'j' && t[i + 1] == 's' && t[i + 2] == 'o' && t[i + 3] == 'n'
  }

  predicate NoFence(t: string) {
    forall i :: 0 <= i < |t| ==> !FenceAt(t, i)
  }

  /** A fence with another fence starting at least three characters later. */
  ghost predicate HasFencePair(t: string) {
    exists i: nat, j: nat :: i + 3 <= j && FenceAt(t, i) && FenceAt(t, j)
  }

  lemma BacktickIsNotSpace()
    ensures !IsSpace('`')
  {
  }

  // ---------------------------------------------------------------------
  // The engine's order of attempts

  /**
   * \s*``` at e: the greedy \s* first takes all k whitespace characters of
   * the run at e and gives them back one at a time until ``` follows.
   */
  function CloseAfter(t: string, e: nat, k: nat): (r: Option<nat>)
    requires e + k <= |t|
    ensures r.Some? ==> e <= r.value <= e + k && FenceAt(t, r.value)
    decreases k
  {
    if FenceAt(t, e + k) then Some(e + k)
    else if k == 0 then None
    else CloseAfter(t, e, k - 1)
  }

  /**
   * The lazy body ([\s\S]*?) tried with end e, then e + 1, and so on:
   * the body end and the closing fence of the first end that works.
   */
  function LazyBody(t: string, e: nat): (r: Option<(nat, nat)>)
    requires e <= |t|
    ensures r.Some? ==> e <= r.value.0 <= r.value.1 && FenceAt(t, r.value.1)
    decreases |t| - e
  {
    match CloseAfter(t, e, SkipSpace(t, e) - e)
    case Some(c) => Some((e, c))
    case None => if e == |t| then None else LazyBody(t, e + 1)
  }

  /**
   * The greedy \s* after the opening fence (and tag) at q, with w
   * whitespace characters taken and given back one at a time.
   */
  function SpaceThenBody(t: string, open: nat, tagged: bool, q: nat, w: nat): (r: Option<Match>)
    requires q + w <= |t|
    ensures r.Some? ==> r.value.open == open && r.value.tagged == tagged
    ensures r.Some? ==> q <= r.value.bodyStart <= r.value.bodyEnd <= r.value.close && FenceAt(t, r.value.close)
    decreases w
  {
    match LazyBody(t, q + w)
    case Some((e, c)) => Some(Match(open, tagged, q + w, e, c))
    case None => if w == 0 then None else SpaceThenBody(t, open, tagged, q, w - 1)
  }

  /** After the opening fence at open: the group (json)? is tried first with the word, then without. */
  function AfterOpen(t: string, open: nat): (r: Option<Match>)
    requires open + 3 <= |t|
    ensures r.Some? ==> r.value.open == open
    ensures r.Some? ==> open + 3 <= r.value.bodyStart <= r.value.bodyEnd <= r.value.close && FenceAt(t, r.value.close)
  {
    var p := open + 3;
    var withTag := if JsonAt(t, p) then SpaceThenBody(t, open, true, p + 4, SkipSpace(t, p + 4) - (p + 4)) else None;
    if withTag.Some? then withTag else SpaceThenBody(t, open, false, p, SkipSpace(t, p) - p)
  }

  /** The engine's scan of start positions from i onwards. */
  function SearchFrom(t: string, i: nat): (r: Option<Match>)
    requires i <= |t|
    ensures r.Some? ==> i <= r.value.open && FenceAt(t, r.value.open)
    ensures r.Some? ==> r.value.open + 3 <= r.value.bodyStart <= r.value.bodyEnd <= r.value.close && FenceAt(t, r.value.close)
    decreases |t| - i
  {
    if FenceAt(t, i) && AfterOpen(t, i).Some? then AfterOpen(t, i)
    else if i == |t| then None
    else SearchFrom(t, i + 1)
  }

  /** text.match(/```(json)?\s*([\s\S]*?)\s*```/), as the engine runs it. */
  function RegexMatch(t: string): (r: Option<Match>)
    ensures r.Some? ==> r.value.bodyStart <= r.value.bodyEnd <= |t|
  {
    SearchFrom(t, 0)
  }

  // ---------------------------------------------------------------------
  // The declarative description

  /** Everything about a match at m.open except that it is the leftmost one. */
  ghost predicate IsMatchAt(t: string, m: Match) {
    var q := m.open + 3 + (if m.tagged then 4 else 0);
    && FenceAt(t, m.open)
    && (m.tagged <==> JsonAt(t, m.open + 3))
    // the greedy \s* ends at the first non-whitespace character after the tag
    && q <= m.bodyStart <= m.bodyEnd <= m.close
    && FenceAt(t, m.close)
    && (forall k :: q <= k < m.bodyStart ==> IsSpace(t[k]))
    && !IsSpace(t[m.bodyStart])
    // the closing fence is the first one at or after the body start
    && (forall k: nat :: m.bodyStart <= k < m.close ==> !FenceAt(t, k))
    // the body stops before the whitespace that precedes it
    && (forall k :: m.bodyEnd <= k < m.close ==> IsSpace(t[k]))
    && (m.bodyEnd == m.bodyStart || !IsSpace(t[m.bodyEnd - 1]))
  }

  /** The opening fence of the match is the leftmost ``` in the text. */
  ghost predicate IsLeftmostMatch(t: string, m: Match) {
    && IsMatchAt(t, m)
    && (forall i: nat :: i < m.open ==> !FenceAt(t, i))
  }

  // ---------------------------------------------------------------------
  // Direct computation

  /** The first fence starting at or after k. */
  function FirstFence(t: string, k: nat): (r: Option<nat>)
    requires k <= |t|
    ensures r.Some? ==> k <= r.value && FenceAt(t, r.value)
    ensures forall j: nat :: k <= j && (r.None? || j < r.value) ==> !FenceAt(t, j)
    decreases |t| - k
  {
    if FenceAt(t, k) then Some(k)
    else if k == |t| then None
    else FirstFence(t, k + 1)
  }

  /** Positions that hold no backtick do not change the next fence. */
  lemma FirstFenceSkips(t: string, k: nat, k': nat)
    requires k <= k' <= |t|
    requires forall j :: k <= j < k' ==> t[j] != '`'
    ensures FirstFence(t, k) == FirstFence(t, k')
  {
  }

  /** The match given the opening fence at open, when a closing fence exists. */
  function MatchAt(t: string, open: nat): (m: Match)
    requires FenceAt(t, open) && FirstFence(t, open + 3).Some?
    ensures m.open == open && m.bodyStart <= |t| && FirstFence(t, m.bodyStart) == Some(m.close)
  {
    var tagged := JsonAt(t, open + 3);
    var q := open + 3 + (if tagged then 4 else 0);
    var b := SkipSpace(t, q);
    SkipTagAndSpace(t, open);
    var c := FirstFence(t, b).value;
    var e := BackSkipSpace(t, c, b);
    Match(open, tagged, b, e, c)
  }

  /** The json word and the whitespace after the opening fence hold no fence. */
  lemma SkipTagAndSpace(t: string, open: nat)
    requires open + 3 <= |t|
    ensures var q := open + 3 + (if JsonAt(t, open + 3) then 4 else 0);
      FirstFence(t, open + 3) == FirstFence(t, SkipSpace(t, q))
  {
    BacktickIsNotSpace();
    var q := open + 3 + (if JsonAt(t, open + 3) then 4 else 0);
    FirstFenceSkips(t, open + 3, q);
    FirstFenceSkips(t, q, SkipSpace(t, q));
  }

  /** MatchAt meets the declarative description of a match at open. */
  lemma MatchAtIsMatch(t: string, open: nat)
    requires FenceAt(t, open) && FirstFence(t, open + 3).Some?
    ensures IsMatchAt(t, MatchAt(t, open))
  {
    BacktickIsNotSpace();
  }

  /** The match that starts at the first fence from i on, if any. */
  function ClosedFrom(t: string, i: nat): Option<Match>
    requires i <= |t|
  {
    match FirstFence(t, i)
    case None => None
    case Some(open) => if FirstFence(t, open + 3).None? then None else Some(MatchAt(t, open))
  }

  /**
   * The match found directly: the opening fence is the leftmost ``` of the
   * text, and there is a match at all exactly when a second fence starts at
   * least three characters after it.
   */
  function LeftmostMatch(t: string): (r: Option<Match>)
    ensures r.None? <==> !HasFencePair(t)
    ensures r.Some? ==> IsLeftmostMatch(t, r.value)
  {
    var r := ClosedFrom(t, 0);
    assert r.Some? ==> IsMatchAt(t, r.value) by {
      if r.Some? { MatchAtIsMatch(t, r.value.open); }
    }
    assert r.None? ==> !HasFencePair(t) by {
      if r.None? && FirstFence(t, 0).Some? {
        var open := FirstFence(t, 0).value;
        assert forall i: nat, j: nat :: i + 3 <= j && FenceAt(t, i) ==> open <= i && !FenceAt(t, j);
      }
    }
    r
  }

  // ---------------------------------------------------------------------
  // The engine's order of attempts finds the direct match

  lemma {:induction false} CloseAfterIsRunEnd(t: string, e: nat, k: nat)
    requires e <= |t| && e + k <= SkipSpace(t, e)
    ensures CloseAfter(t, e, k) ==
      if e + k == SkipSpace(t, e) && FenceAt(t, e + k) then Some(e + k) else None
    decreases k
  {
    BacktickIsNotSpace();
    if !FenceAt(t, e + k) && k > 0 {
      CloseAfterIsRunEnd(t, e, k - 1);
    }
  }

  lemma {:induction false} LazyBodyIsFirstFence(t: string, e: nat)
    requires e <= |t|
    ensures LazyBody(t, e) ==
      match FirstFence(t, e)
      case None => None
      case Some(c) => Some((BackSkipSpace(t, c, e), c))
    decreases |t| - e
  {
    var s := SkipSpace(t, e);
    CloseAfterIsRunEnd(t, e, s - e);
    if FenceAt(t, s) {
      LazyAtRun(t, e);
    } else if e < |t| {
      assert LazyBody(t, e) == LazyBody(t, e + 1);
      LazyBodyIsFirstFence(t, e + 1);
      LazyStep(t, e);
    }
  }

  /** A fence right after the whitespace run at e closes an empty body at e. */
  lemma LazyAtRun(t: string, e: nat)
    requires e <= |t| && FenceAt(t, SkipSpace(t, e))
    ensures FirstFence(t, e) == Some(SkipSpace(t, e))
    ensures BackSkipSpace(t, SkipSpace(t, e), e) == e
  {
    var s := SkipSpace(t, e);
    BacktickIsNotSpace();
    FirstFenceSkips(t, e, s);
    BackSkipSpaceIs(t, s, e, e);
  }

  /** Without a fence after the run at e, the body grows by one and the answer is unchanged. */
  lemma LazyStep(t: string, e: nat)
    requires e < |t| && !FenceAt(t, SkipSpace(t, e))
    ensures FirstFence(t, e) == FirstFence(t, e + 1)
    ensures FirstFence(t, e + 1).Some? ==>
      BackSkipSpace(t, FirstFence(t, e + 1).value, e) == BackSkipSpace(t, FirstFence(t, e + 1).value, e + 1)
  {
    var s := SkipSpace(t, e);
    BacktickIsNotSpace();
    assert !FenceAt(t, e) by {
      if e < s { assert IsSpace(t[e]); }
    }
    if FirstFence(t, e + 1).Some? {
      var c := FirstFence(t, e + 1).value;
      var x := BackSkipSpace(t, c, e);
      if x == e {
        SkipSpaceIs(t, e, c);
        assert false;
      }
      BackSkipSpaceIs(t, c, e + 1, x);
    }
  }

  lemma {:induction false} SpaceThenBodyIsFirstFence(t: string, open: nat, tagged: bool, q: nat, w: nat)
    requires q <= |t| && q + w <= SkipSpace(t, q)
    ensures SpaceThenBody(t, open, tagged, q, w) ==
      match FirstFence(t, q)
      case None => None
      case Some(c) => Some(Match(open, tagged, q + w, BackSkipSpace(t, c, q + w), c))
    decreases w
  {
    BacktickIsNotSpace();
    LazyBodyIsFirstFence(t, q + w);
    FirstFenceSkips(t, q, q + w);
    if FirstFence(t, q).None? && w > 0 {
      SpaceThenBodyIsFirstFence(t, open, tagged, q, w - 1);
    }
  }

  lemma JsonHasNoBacktick(t: string, p: nat)
    requires JsonAt(t, p)
    ensures forall j :: p <= j < p + 4 ==> t[j] != '`'
  {
  }

  /** MatchAt spelled out when the next fence after the opening one is c. */
  lemma MatchAtIs(t: string, open: nat, c: nat)
    requires FenceAt(t, open) && FirstFence(t, open + 3) == Some(c)
    ensures var m := MatchAt(t, open);
      && m.tagged == JsonAt(t, open + 3)
      && m.close == c
      && m.bodyStart == SkipSpace(t, open + 3 + (if m.tagged then 4 else 0))
      && m.bodyEnd == BackSkipSpace(t, c, m.bodyStart)
  {
    SkipTagAndSpace(t, open);
  }

  /** Without the word json, only the attempt without the optional group is made. */
  lemma AfterOpenUntagged(t: string, open: nat)
    requires FenceAt(t, open) && !JsonAt(t, open + 3)
    ensures var b := SkipSpace(t, open + 3);
      AfterOpen(t, open) ==
        match FirstFence(t, open + 3)
        case None => None
        case Some(c) => Some(Match(open, false, b, BackSkipSpace(t, c, b), c))
  {
    var p := open + 3;
    assert AfterOpen(t, open) == SpaceThenBody(t, open, false, p, SkipSpace(t, p) - p);
    SpaceThenBodyIsFirstFence(t, open, false, p, SkipSpace(t, p) - p);
  }

  /** With the word json, the attempt with the group succeeds whenever any does. */
  lemma AfterOpenTagged(t: string, open: nat)
    requires FenceAt(t, open) && JsonAt(t, open + 3)
    ensures var b := SkipSpace(t, open + 7);
      AfterOpen(t, open) ==
        match FirstFence(t, open + 3)
        case None => None
        case Some(c) => Some(Match(open, true, b, BackSkipSpace(t, c, b), c))
  {
    var p := open + 3;
    JsonHasNoBacktick(t, p);
    FirstFenceSkips(t, p, p + 4);
    TaggedAttempt(t, open);
    AfterOpenTaggedOrder(t, open);
    if FirstFence(t, p).None? {
      SpaceThenBodyIsFirstFence(t, open, false, p, SkipSpace(t, p) - p);
    }
  }

  lemma TaggedAttempt(t: string, open: nat)
    requires FenceAt(t, open) && JsonAt(t, open + 3)
    ensures var q := open + 7; var b := SkipSpace(t, q);
      SpaceThenBody(t, open, true, q, b - q) ==
        match FirstFence(t, q)
        case None => None
        case Some(c) => Some(Match(open, true, b, BackSkipSpace(t, c, b), c))
  {
    var q := open + 7;
    SpaceThenBodyIsFirstFence(t, open, true, q, SkipSpace(t, q) - q);
  }

  /** With the word json after the fence, the attempt with the group comes first. */
  lemma AfterOpenTaggedOrder(t: string, open: nat)
    requires FenceAt(t, open) && JsonAt(t, open + 3)
    ensures var q := open + 7; var b := SkipSpace(t, q);
      var withTag := SpaceThenBody(t, open, true, q, b - q);
      var plain := SpaceThenBody(t, open, false, open + 3, SkipSpace(t, open + 3) - (open + 3));
      AfterOpen(t, open) == if withTag.Some? then withTag else plain
  {
  }

  /** The engine's attempts after the opening fence. */
  lemma AfterOpenIs(t: string, open: nat)
    requires FenceAt(t, open)
    ensures var q := open + 3 + (if JsonAt(t, open + 3) then 4 else 0);
      var b := SkipSpace(t, q);
      AfterOpen(t, open) ==
        match FirstFence(t, open + 3)
        case None => None
        case Some(c) => Some(Match(open, JsonAt(t, open + 3), b, BackSkipSpace(t, c, b), c))
  {
    if JsonAt(t, open + 3) {
      AfterOpenTagged(t, open);
    } else {
      AfterOpenUntagged(t, open);
    }
  }

  lemma AfterOpenIsMatchAt(t: string, open: nat)
    requires FenceAt(t, open)
    ensures AfterOpen(t, open) ==
      if FirstFence(t, open + 3).None? then None else Some(MatchAt(t, open))
  {
    AfterOpenIs(t, open);
    if FirstFence(t, open + 3).Some? {
      MatchAtIs(t, open, FirstFence(t, open + 3).value);
    }
  }

  lemma {:induction false} SearchFromIsClosedFrom(t: string, i: nat)
    requires i <= |t|
    ensures SearchFrom(t, i) == ClosedFrom(t, i)
    decreases |t| - i
  {
    if FenceAt(t, i) {
      AfterOpenIsMatchAt(t, i);
      if FirstFence(t, i + 3).None? {
        SearchFromIsClosedFrom(t, i + 1);
      }
    } else if i < |t| {
      SearchFromIsClosedFrom(t, i + 1);
    }
  }

  /** The engine's match is the directly computed leftmost match. */
  lemma RegexMatchIsLeftmost(t: string)
    ensures RegexMatch(t) == LeftmostMatch(t)
  {
    SearchFromIsClosedFrom(t, 0);
  }

  /** The first fence from k on is the fence at c when none comes between. */
  lemma FirstFenceIs(t: string, k: nat, c: nat)
    requires k <= c && FenceAt(t, c)
    requires forall j: nat :: k <= j < c ==> !FenceAt(t, j)
    ensures FirstFence(t, k) == Some(c)
  {
  }

  /** Under the description, the closing fence is the first fence after the opening one. */
  lemma CloseIsNextFence(t: string, m: Match)
    requires IsMatchAt(t, m)
    ensures FirstFence(t, m.open + 3) == Some(m.close)
  {
    NextFenceFrom(t, m.open, m.bodyStart, m.close);
  }

  /** The first fence after the opening one, found from the first visible character after the tag. */
  lemma NextFenceFrom(t: string, open: nat, b: nat, c: nat)
    requires FenceAt(t, open)
    requires var q := open + 3 + (if JsonAt(t, open + 3) then 4 else 0);
      && q <= b <= c && FenceAt(t, c)
      && (forall k :: q <= k < b ==> IsSpace(t[k]))
      && !IsSpace(t[b])
      && (forall j: nat :: b <= j < c ==> !FenceAt(t, j))
    ensures FirstFence(t, open + 3) == Some(c)
  {
    var q := open + 3 + (if JsonAt(t, open + 3) then 4 else 0);
    SkipSpaceIs(t, q, b);
    SkipTagAndSpace(t, open);
    FirstFenceIs(t, b, c);
  }

  /** Under the description, the match at m.open is m. */
  lemma MatchAtIsDescribed(t: string, m: Match)
    requires IsMatchAt(t, m)
    ensures FirstFence(t, m.open + 3).Some? && MatchAt(t, m.open) == m
  {
    CloseIsNextFence(t, m);
    MatchAtFrom(t, m.open, m.bodyStart, m.bodyEnd, m.close);
  }

  /** The match at open, given where its body starts and ends and where it closes. */
  lemma MatchAtFrom(t: string, open: nat, b: nat, e: nat, c: nat)
    requires FenceAt(t, open) && FirstFence(t, open + 3) == Some(c)
    requires var q := open + 3 + (if JsonAt(t, open + 3) then 4 else 0);
      && q <= b <= e <= c
      && (forall k :: q <= k < b ==> IsSpace(t[k]))
      && !IsSpace(t[b])
      && (forall k :: e <= k < c ==> IsSpace(t[k]))
      && (e == b || !IsSpace(t[e - 1]))
    ensures MatchAt(t, open) == Match(open, JsonAt(t, open + 3), b, e, c)
  {
    var q := open + 3 + (if JsonAt(t, open + 3) then 4 else 0);
    SkipSpaceIs(t, q, b);
    BackSkipSpaceIs(t, c, b, e);
    MatchAtIs(t, open, c);
  }

  /** The declarative description determines the match completely. */
  lemma LeftmostMatchComplete(t: string, m: Match)
    requires IsLeftmostMatch(t, m)
    ensures RegexMatch(t) == Some(m)
  {
    RegexMatchIsLeftmost(t);
    FirstFenceIs(t, 0, m.open);
    MatchAtIsDescribed(t, m);
  }

  // ---------------------------------------------------------------------
  // A reply that wraps a payload in a fenced block

  predicate NoBacktick(s: string) {
    forall k :: 0 <= k < |s| ==> s[k] != '`'
  }

  /** The word after the opening fence once the optional group (json) has taken its part. */
  function TagRemainder(tag: string): (r: string)
    ensures JsonAt(tag, 0) ==> tag == "json" + r
    ensures !JsonAt(tag, 0) ==> r == tag
  {
    if JsonAt(tag, 0) then tag[4..] else tag
  }

  /** A reply holding a payload in a fenced block: the block's opening line carries a tag word. */
  function FencedReply(pre: string, tag: string, payload: string, rest: string): string {
    pre + Block(tag, payload) + rest
  }

  /** A fenced block, from the opening fence to the closing one. */
  function Block(tag: string, payload: string): string {
    "```" + tag + "\n" + payload + "\n```"
  }

  /** Where the parts of a fenced reply sit in its text. */
  ghost predicate LaidOut(t: string, pre: string, tag: string, payload: string) {
    var o := |pre|;
    var nl := o + 3 + |tag|;
    var pe := nl + 1 + |payload|;
    && pe + 4 <= |t|
    && (forall k :: 0 <= k < o ==> t[k] == pre[k])
    && FenceAt(t, o)
    && (forall k :: 0 <= k < |tag| ==> t[o + 3 + k] == tag[k])
    && t[nl] == '\n'
    && (forall k :: 0 <= k < |payload| ==> t[nl + 1 + k] == payload[k])
    && t[pe] == '\n'
    && FenceAt(t, pe + 1)
  }

  lemma FencedReplyLaidOut(pre: string, tag: string, payload: string, rest: string)
    ensures LaidOut(FencedReply(pre, tag, payload, rest), pre, tag, payload)
  {
  }

  /** The match the regex makes on a fenced reply. */
  function FencedMatch(pre: string, tag: string, payload: string): Match {
    var nl := |pre| + 3 + |tag|;
    var rem := TagRemainder(tag);
    Match(|pre|, JsonAt(tag, 0), if rem == [] then nl + 1 else nl - |rem|,
          nl + 1 + |payload|, nl + 2 + |payload|)
  }

  /** Preconditions on the parts of a fenced reply. */
  predicate WellFenced(pre: string, tag: string, payload: string) {
    && NoBacktick(pre) && NoBacktick(tag)
    && (forall k :: 0 <= k < |tag| ==> !IsSpace(tag[k]))
    && payload != [] && !IsSpace(payload[0]) && !IsSpace(payload[|payload| - 1])
    && NoFence(payload)
  }

  lemma FencedBodyHasNoFence(t: string, pre: string, tag: string, payload: string)
    requires LaidOut(t, pre, tag, payload) && WellFenced(pre, tag, payload)
    ensures var m := FencedMatch(pre, tag, payload);
      forall k: nat :: m.bodyStart <= k < m.close ==> !FenceAt(t, k)
  {
    var m := FencedMatch(pre, tag, payload);
    var nl := |pre| + 3 + |tag|;
    var ps := nl + 1;
    var pe := ps + |payload|;
    forall k | m.bodyStart <= k < nl ensures t[k] != '`' {
      assert t[k] == tag[k - |pre| - 3];
    }
    forall k | ps <= k && k + 2 < pe ensures !FenceAt(t, k) {
      assert !FenceAt(payload, k - ps);
    }
  }

  lemma FencedIsLeftmost(t: string, pre: string, tag: string, payload: string)
    requires LaidOut(t, pre, tag, payload) && WellFenced(pre, tag, payload)
    ensures IsLeftmostMatch(t, FencedMatch(pre, tag, payload))
  {
    var m := FencedMatch(pre, tag, payload);
    var rem := TagRemainder(tag);
    BacktickIsNotSpace();
    assert m.tagged <==> JsonAt(t, m.open + 3);
    FencedBodyHasNoFence(t, pre, tag, payload);
    assert t[m.bodyStart] == if rem == [] then payload[0] else tag[|tag| - |rem|];
    assert t[m.bodyEnd - 1] == payload[|payload| - 1];
  }

  lemma FencedBody(t: string, pre: string, tag: string, payload: string)
    requires LaidOut(t, pre, tag, payload) && WellFenced(pre, tag, payload)
    ensures var m := FencedMatch(pre, tag, payload);
      && m.bodyStart < m.bodyEnd <= |t|
      && t[m.bodyStart..m.bodyEnd] ==
           if TagRemainder(tag) == [] then payload else TagRemainder(tag) + "\n" + payload
  {
    var m := FencedMatch(pre, tag, payload);
    var rem := TagRemainder(tag);
    var nl := |pre| + 3 + |tag|;
    var body := t[m.bodyStart..m.bodyEnd];
    if rem == [] {
      assert forall k :: 0 <= k < |payload| ==> body[k] == payload[k];
    } else {
      var want := rem + "\n" + payload;
      assert |body| == |want|;
      forall k | 0 <= k < |want| ensures body[k] == want[k] {
        if k < |rem| {
          assert rem[k] == tag[|tag| - |rem| + k];
        } else if k > |rem| {
          assert body[k] == t[nl + 1 + (k - |rem| - 1)];
        }
      }
    }
  }

  /**
   * A payload fenced as ``` tag newline payload newline ```, with no
   * backtick before the block and anything after it: the body is the
   * payload, preceded by what is left of the tag when the tag is not
   * exactly json. A later fenced block in rest plays no part.
   */
  lemma FencedBlockMatch(pre: string, tag: string, payload: string, rest: string)
    requires WellFenced(pre, tag, payload)
    ensures var t := FencedReply(pre, tag, payload, rest);
      && RegexMatch(t) == Some(FencedMatch(pre, tag, payload))
      && var m := FencedMatch(pre, tag, payload);
         m.bodyStart < m.bodyEnd
         && t[m.bodyStart..m.bodyEnd] ==
              if TagRemainder(tag) == [] then payload else TagRemainder(tag) + "\n" + payload
  {
    var t := FencedReply(pre, tag, payload, rest);
    FencedReplyLaidOut(pre, tag, payload, rest);
    FencedIsLeftmost(t, pre, tag, payload);
    LeftmostMatchComplete(t, FencedMatch(pre, tag, payload));
    FencedBody(t, pre, tag, payload);
  }

  lemma NoFenceNoPair(t: string)
    requires NoFence(t)
    ensures !HasFencePair(t)
  {
  }

  lemma NoBacktickNoPair(t: string)
    requires NoBacktick(t)
    ensures !HasFencePair(t)
  {
  }

  /** A fenced block holding only whitespace, with the tag json or none. */
  function EmptyBlock(tag: string, ws: string): string {
    "```" + tag + ws + "```"
  }

  /** The regex matches such a block with an empty body. */
  lemma EmptyBlockMatch(tag: string, ws: string)
    requires tag == [] || tag == "json"
    requires AllSpace(ws)
    ensures var t := EmptyBlock(tag, ws);
      RegexMatch(t).Some? && RegexMatch(t).value.bodyStart == RegexMatch(t).value.bodyEnd
  {
    var t := EmptyBlock(tag, ws);
    var q := 3 + |tag|;
    var c := q + |ws|;
    BacktickIsNotSpace();
    assert forall k :: 0 <= k < |ws| ==> t[q + k] == ws[k];
    assert t[c] == '`' && t[c + 1] == '`' && t[c + 2] == '`';
    assert (tag == "json") <==> JsonAt(t, 3);
    var m := Match(0, tag == "json", c, c, c);
    assert IsLeftmostMatch(t, m);
    LeftmostMatchComplete(t, m);
  }

  /** What a caller of the regex can rely on: a match iff a fence pair, and a body with visible ends. */
  lemma RegexMatchFacts(t: string)
    ensures RegexMatch(t).None? <==> !HasFencePair(t)
    ensures RegexMatch(t).Some? ==>
      var m := RegexMatch(t).value;
      && m.bodyStart <= m.bodyEnd < |t|
      && !IsSpace(t[m.bodyStart])
      && (m.bodyStart < m.bodyEnd ==> !IsSpace(t[m.bodyEnd - 1]))
  {
    RegexMatchIsLeftmost(t);
    if RegexMatch(t).Some? {
      var m := RegexMatch(t).value;
      assert IsMatchAt(t, m);
    }
  }
}
