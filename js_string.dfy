/**
 * The few JavaScript string routines the client relies on: the whitespace
 * set shared by String.prototype.trim and the regular-expression class \s,
 * trim itself, startsWith, and the first piece of split.
 */
module JsString {

  /**
   * WhiteSpace and LineTerminator code points of ECMAScript (sections 12.2
   * and 12.3 of ECMA-262): the one set both trim and \s use.
   */
  predicate IsSpace(c: char) {
    c in SpaceChars
  }

  /** Within ASCII the set is the space and the five controls from tab to carriage return. */
  lemma IsSpaceAscii(c: char)
    requires c < '\U{80}'
    ensures IsSpace(c) <==> c == ' ' || '\t' <= c <= '\r'
  {
  }

  const SpaceChars: set<char> := {
    '\t', '\n', '\U{B}', '\U{C}', '\r', ' ', '\U{A0}', '\U{1680}',
    '\U{2000}', '\U{2001}', '\U{2002}', '\U{2003}', '\U{2004}', '\U{2005}',
    '\U{2006}', '\U{2007}', '\U{2008}', '\U{2009}', '\U{200A}',
    '\U{2028}', '\U{2029}', '\U{202F}', '\U{205F}', '\U{3000}', '\U{FEFF}'
  }

  predicate AllSpace(s: string) {
    forall k :: 0 <= k < |s| ==> IsSpace(s[k])
  }

  /** The index just past the whitespace run that starts at i. */
  function SkipSpace(s: string, i: nat): (j: nat)
    requires i <= |s|
    ensures i <= j <= |s|
    ensures forall k :: i <= k < j ==> IsSpace(s[k])
    ensures j == |s| || !IsSpace(s[j])
    decreases |s| - i
  {
    if i < |s| && IsSpace(s[i]) then SkipSpace(s, i + 1) else i
  }

  /** The start of the whitespace run that ends at j, going no lower than lo. */
  function BackSkipSpace(s: string, j: nat, lo: nat): (i: nat)
    requires lo <= j <= |s|
    ensures lo <= i <= j
    ensures forall k :: i <= k < j ==> IsSpace(s[k])
    ensures i == lo || !IsSpace(s[i - 1])
    decreases j
  {
    if lo < j && IsSpace(s[j - 1]) then BackSkipSpace(s, j - 1, lo) else j
  }

  /** SkipSpace stops exactly at the first non-whitespace character. */
  lemma SkipSpaceIs(s: string, i: nat, j: nat)
    requires i <= j < |s| && !IsSpace(s[j])
    requires forall k :: i <= k < j ==> IsSpace(s[k])
    ensures SkipSpace(s, i) == j
  {
  }

  /** BackSkipSpace stops exactly after the last non-whitespace character. */
  lemma BackSkipSpaceIs(s: string, j: nat, lo: nat, i: nat)
    requires lo <= i <= j <= |s|
    requires forall k :: i <= k < j ==> IsSpace(s[k])
    requires i == lo || !IsSpace(s[i - 1])
    ensures BackSkipSpace(s, j, lo) == i
  {
  }

  /**
   * r is s with its leading and trailing whitespace removed: a slice of s
   * with only whitespace around it and no whitespace at either end.
   */
  ghost predicate IsTrimOf(r: string, s: string) {
    exists i, j ::
      && 0 <= i <= j <= |s| && r == s[i..j]
      && (forall k :: 0 <= k < i ==> IsSpace(s[k]))
      && (forall k :: j <= k < |s| ==> IsSpace(s[k]))
      && (r == [] || (!IsSpace(r[0]) && !IsSpace(r[|r| - 1])))
  }

  /** String.prototype.trim. */
  function Trim(s: string): (r: string)
    ensures r == [] <==> AllSpace(s)
    ensures r == [] || (!IsSpace(r[0]) && !IsSpace(r[|r| - 1]))
  {
    var i := SkipSpace(s, 0);
    var j := BackSkipSpace(s, |s|, i);
    assert i < j ==> !IsSpace(s[i]) && !IsSpace(s[j - 1]);
    s[i..j]
  }

  /** Trim meets the description of a trim. */
  lemma TrimIsTrimOf(s: string)
    ensures IsTrimOf(Trim(s), s)
  {
    var i := SkipSpace(s, 0);
    var j := BackSkipSpace(s, |s|, i);
    assert Trim(s) == s[i..j];
  }

  /** The trim of a text is unique: every r with IsTrimOf(r, s) is Trim(s). */
  lemma TrimOfIsTrim(r: string, s: string)
    requires IsTrimOf(r, s)
    ensures r == Trim(s)
  {
    var i, j :| 0 <= i <= j <= |s| && r == s[i..j]
      && (forall k :: 0 <= k < i ==> IsSpace(s[k]))
      && (forall k :: j <= k < |s| ==> IsSpace(s[k]))
      && (r == [] || (!IsSpace(r[0]) && !IsSpace(r[|r| - 1])));
    assert r == [] || (r[0] == s[i] && r[|r| - 1] == s[j - 1]);
    TrimIs(s, i, j);
  }

  /** The trim is the slice between the whitespace runs at both ends. */
  lemma TrimIs(s: string, i: nat, j: nat)
    requires i <= j <= |s|
    requires forall k :: 0 <= k < i ==> IsSpace(s[k])
    requires forall k :: j <= k < |s| ==> IsSpace(s[k])
    requires i == j || (!IsSpace(s[i]) && !IsSpace(s[j - 1]))
    ensures Trim(s) == s[i..j]
  {
    if i == j {
      assert AllSpace(s);
    } else {
      SkipSpaceIs(s, 0, i);
      BackSkipSpaceIs(s, |s|, i, j);
    }
  }

  /** Trimming twice is trimming once. */
  lemma TrimIdempotent(s: string)
    ensures Trim(Trim(s)) == Trim(s)
  {
    var r := Trim(s);
    assert r == [] || (!IsSpace(r[0]) && !IsSpace(r[|r| - 1]));
    assert r[0..|r|] == r;
    assert IsTrimOf(r, r);
    TrimOfIsTrim(r, r);
  }

  /**
   * Whitespace is trimmed only up to the first and last non-whitespace
   * character: trimming a + m + b, where m starts and ends with visible
   * characters, trims only a at the front and b at the back.
   */
  lemma TrimAround(a: string, m: string, b: string)
    requires m != [] && !IsSpace(m[0]) && !IsSpace(m[|m| - 1])
    ensures Trim(a + m + b) == a[SkipSpace(a, 0)..] + m + b[..BackSkipSpace(b, |b|, 0)]
  {
    var i := SkipSpace(a, 0);
    var jb := BackSkipSpace(b, |b|, 0);
    JoinEnds(a, m, b, i, jb);
    TrimIs(a + m + b, i, |a| + |m| + jb);
    SliceOfJoin(a, m, b, i, jb);
  }

  /** Where the whitespace runs at both ends of a + m + b stop, when m starts and ends visibly. */
  lemma JoinEnds(a: string, m: string, b: string, i: nat, jb: nat)
    requires m != [] && !IsSpace(m[0]) && !IsSpace(m[|m| - 1])
    requires i <= |a| && jb <= |b|
    requires forall k :: 0 <= k < i ==> IsSpace(a[k])
    requires forall k :: jb <= k < |b| ==> IsSpace(b[k])
    requires i == |a| || !IsSpace(a[i])
    requires jb == 0 || !IsSpace(b[jb - 1])
    ensures var s := a + m + b;
      && (forall k :: 0 <= k < i ==> IsSpace(s[k]))
      && (forall k :: |a| + |m| + jb <= k < |s| ==> IsSpace(s[k]))
      && !IsSpace(s[i]) && !IsSpace(s[|a| + |m| + jb - 1])
  {
    var s := a + m + b;
    forall k | 0 <= k < i ensures IsSpace(s[k]) {
      assert s[k] == a[k];
    }
    forall k | |a| + |m| + jb <= k < |s| ensures IsSpace(s[k]) {
      assert s[k] == b[k - |a| - |m|];
    }
    assert s[i] == if i < |a| then a[i] else m[0];
    assert s[|a| + |m| + jb - 1] == if jb > 0 then b[jb - 1] else m[|m| - 1];
  }

  /** The middle of a + m + b, cut inside a and inside b. */
  lemma SliceOfJoin(a: string, m: string, b: string, i: nat, jb: nat)
    requires i <= |a| && jb <= |b|
    ensures (a + m + b)[i..|a| + |m| + jb] == a[i..] + m + b[..jb]
  {
    var s := a + m + b;
    var r := a[i..] + m + b[..jb];
    var t := s[i..|a| + |m| + jb];
    assert |t| == |r|;
    forall k | 0 <= k < |r| ensures t[k] == r[k] {
      if k < |a| - i {
        assert t[k] == a[i + k];
      } else if k < |a| - i + |m| {
        assert t[k] == m[k - (|a| - i)];
      } else {
        assert t[k] == b[k - (|a| - i) - |m|];
      }
    }
  }

  /** A text with visible characters at both ends is its own trim. */
  lemma TrimOfTrimmed(s: string)
    requires s == [] || (!IsSpace(s[0]) && !IsSpace(s[|s| - 1]))
    ensures Trim(s) == s
  {
    TrimIs(s, 0, |s|);
  }

  /** Whitespace added around a text is removed again by trim. */
  lemma TrimPadded(w1: string, s: string, w2: string)
    requires AllSpace(w1) && AllSpace(w2)
    ensures Trim(w1 + s + w2) == Trim(s)
  {
    var i := SkipSpace(s, 0);
    var j := BackSkipSpace(s, |s|, i);
    PaddedEnds(w1, s, w2, i, j);
    TrimIs(w1 + s + w2, |w1| + i, |w1| + j);
    SliceOfMiddle(w1, s, w2, i, j);
  }

  lemma SliceOfMiddle(a: string, m: string, b: string, i: nat, j: nat)
    requires i <= j <= |m|
    ensures (a + m + b)[|a| + i..|a| + j] == m[i..j]
  {
    var t := (a + m + b)[|a| + i..|a| + j];
    assert forall k :: 0 <= k < |t| ==> t[k] == m[i + k];
  }

  /** The whitespace runs at both ends of a padded text reach into the text. */
  lemma PaddedEnds(w1: string, s: string, w2: string, i: nat, j: nat)
    requires AllSpace(w1) && AllSpace(w2)
    requires i <= j <= |s|
    requires forall k :: 0 <= k < i ==> IsSpace(s[k])
    requires forall k :: j <= k < |s| ==> IsSpace(s[k])
    ensures var u := w1 + s + w2;
      && (forall k :: 0 <= k < |w1| + i ==> IsSpace(u[k]))
      && (forall k :: |w1| + j <= k < |u| ==> IsSpace(u[k]))
      && (i < j ==> u[|w1| + i] == s[i] && u[|w1| + j - 1] == s[j - 1])
  {
    var u := w1 + s + w2;
    forall k | 0 <= k < |w1| + i ensures IsSpace(u[k]) {
      if k < |w1| { assert u[k] == w1[k]; } else { assert u[k] == s[k - |w1|]; }
    }
    forall k | |w1| + j <= k < |u| ensures IsSpace(u[k]) {
      if k < |w1| + |s| { assert u[k] == s[k - |w1|]; } else { assert u[k] == w2[k - |w1| - |s|]; }
    }
  }

  /** String.prototype.startsWith. */
  predicate StartsWith(s: string, prefix: string) {
    |prefix| <= |s| && s[..|prefix|] == prefix
  }

  /** The first element of s.split(sep) for a one-character separator. */
  function BeforeFirst(s: string, sep: char): (r: string)
    ensures |r| <= |s| && r == s[..|r|]
    ensures sep !in r
    ensures |r| == |s| || s[|r|] == sep
  {
    if s == [] || s[0] == sep then [] else [s[0]] + BeforeFirst(s[1..], sep)
  }

  /** The piece before the first separator is exactly the text up to it. */
  lemma BeforeFirstOfJoin(a: string, sep: char, b: string)
    requires sep !in a
    ensures BeforeFirst(a + [sep] + b, sep) == a
  {
    var s := a + [sep] + b;
    var r := BeforeFirst(s, sep);
    assert forall k :: 0 <= k < |a| ==> s[k] == a[k];
    assert s[|a|] == sep;
    assert r == s[..|a|] == a;
  }
}
