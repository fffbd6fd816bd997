/**
 * The whitespace Python's `float()` skips around a number. It is the set
 * `str.isspace()` accepts less the information separators U+001C to U+001F,
 * which `float()` keeps and then fails on.
 */
module FloatSpace {
  import opened Text

  /** The information separators U+001C to U+001F: whitespace to `str.isspace()`, but not to `float()`. */
  predicate IsSeparator(c: char) {
    '\U{1C}' <= c <= '\U{1F}'
  }

  /**
   * The whitespace `float()` strips around a number: every character
   * `str.isspace()` accepts except the information separators.
   */
  predicate IsFloatSpace(c: char) {
    IsSpace(c) && !IsSeparator(c)
  }

  predicate IsFloatBlank(s: string) {
    forall i :: 0 <= i < |s| ==> IsFloatSpace(s[i])
  }

  predicate HasNoSeparator(s: string) {
    forall i :: 0 <= i < |s| ==> !IsSeparator(s[i])
  }

  /** The leading whitespace `float()` skips is dropped; the rest is a suffix of `s`. */
  function FloatTrimStart(s: string): (t: string)
    ensures |t| <= |s| && t == s[|s| - |t|..]
    ensures IsFloatBlank(s[..|s| - |t|])
    ensures t == [] || !IsFloatSpace(t[0])
  {
    if s != [] && IsFloatSpace(s[0]) then
      var t := FloatTrimStart(s[1..]);
      assert s[1..][|s| - 1 - |t|..] == s[|s| - |t|..];
      assert forall i :: 0 <= i < |s| - |t| ==> s[i] == (if i == 0 then s[0] else s[1..][i - 1]);
      t
    else s
  }

  /** The trailing whitespace `float()` skips is dropped; the rest is a prefix of `s`. */
  function FloatTrimEnd(s: string): (t: string)
    ensures |t| <= |s| && t == s[..|t|]
    ensures IsFloatBlank(s[|t|..])
    ensures t == [] || !IsFloatSpace(t[|t| - 1])
  {
    if s != [] && IsFloatSpace(s[|s| - 1]) then
      var t := FloatTrimEnd(s[..|s| - 1]);
      FloatTrimEndStep(s, t);
      t
    else s
  }

  /** Dropping one more trailing whitespace character keeps the `FloatTrimEnd` facts. */
  lemma FloatTrimEndStep(s: string, t: string)
    requires s != [] && IsFloatSpace(s[|s| - 1])
    requires |t| <= |s| - 1 && t == s[..|s| - 1][..|t|] && IsFloatBlank(s[..|s| - 1][|t|..])
    ensures t == s[..|t|] && IsFloatBlank(s[|t|..])
  {
    assert forall i :: |t| <= i < |s| - 1 ==> s[i] == s[..|s| - 1][|t|..][i - |t|];
    assert forall j :: 0 <= j < |s| - |t| ==> s[|t|..][j] == s[|t| + j];
  }

  /** The text `float()` reads: `s` without the whitespace it skips on either side. */
  function FloatStrip(s: string): (t: string)
    ensures |t| <= |s|
    ensures t == [] || (!IsFloatSpace(t[0]) && !IsFloatSpace(t[|t| - 1]))
  {
    FloatTrimEnd(FloatTrimStart(s))
  }

  /**
   * The text `float()` reads sits in `s` right after the whitespace it skips,
   * and only that whitespace lies around it.
   */
  lemma FloatStripIsMiddle(s: string) returns (k: nat)
    ensures var t := FloatStrip(s);
      && k + |t| <= |s| && t == s[k..k + |t|]
      && (forall i :: 0 <= i < k ==> IsFloatSpace(s[i]))
      && (forall i :: k + |t| <= i < |s| ==> IsFloatSpace(s[i]))
  {
    var u := FloatTrimStart(s);
    var t := FloatTrimEnd(u);
    assert t == FloatStrip(s);
    FloatPiecesAt(s, u, t);
    k := |s| - |u|;
  }

  /** Where a piece cut from the front and then from the back of `s` sits inside `s`. */
  lemma FloatPiecesAt(s: string, u: string, t: string)
    requires |u| <= |s| && u == s[|s| - |u|..] && IsFloatBlank(s[..|s| - |u|])
    requires |t| <= |u| && t == u[..|t|] && IsFloatBlank(u[|t|..])
    ensures var k := |s| - |u|;
      && k + |t| <= |s| && t == s[k..k + |t|]
      && (forall i :: 0 <= i < k ==> IsFloatSpace(s[i]))
      && (forall i :: k + |t| <= i < |s| ==> IsFloatSpace(s[i]))
  {
    var k := |s| - |u|;
    assert s[k..][..|t|] == s[k..k + |t|];
    assert forall i :: 0 <= i < k ==> s[i] == s[..k][i];
    assert forall i :: k + |t| <= i < |s| ==> s[i] == u[|t|..][i - k - |t|];
  }

  /** An information separator is never skipped: `float()` reads it, at index `j` of the text it reads. */
  lemma SeparatorIsRead(s: string, i: nat) returns (j: nat)
    requires i < |s| && IsSeparator(s[i])
    ensures j < |FloatStrip(s)| && FloatStrip(s)[j] == s[i]
  {
    j := SeparatorKeptAtStart(s, i);
    SeparatorKeptAtEnd(FloatTrimStart(s), j);
  }

  /** Skipping leading whitespace stops at an information separator or before it. */
  lemma SeparatorKeptAtStart(s: string, i: nat) returns (j: nat)
    requires i < |s| && IsSeparator(s[i])
    ensures j < |FloatTrimStart(s)| && FloatTrimStart(s)[j] == s[i]
  {
    var t := FloatTrimStart(s);
    var k := |s| - |t|;
    j := SeparatorInSuffix(s, t, k, i);
  }

  /** Skipping trailing whitespace stops at an information separator or after it. */
  lemma SeparatorKeptAtEnd(s: string, i: nat)
    requires i < |s| && IsSeparator(s[i])
    ensures i < |FloatTrimEnd(s)| && FloatTrimEnd(s)[i] == s[i]
  {
    SeparatorInPrefix(s, FloatTrimEnd(s), i);
  }

  /** A suffix of `s` that only `float()`'s whitespace precedes holds every separator of `s`. */
  lemma SeparatorInSuffix(s: string, t: string, k: nat, i: nat) returns (j: nat)
    requires k <= |s| && t == s[k..] && IsFloatBlank(s[..k])
    requires i < |s| && IsSeparator(s[i])
    ensures j < |t| && t[j] == s[i]
  {
    assert forall m :: 0 <= m < k ==> s[..k][m] == s[m];
    j := i - k;
  }

  /** A prefix of `s` that only `float()`'s whitespace follows holds every separator of `s`. */
  lemma SeparatorInPrefix(s: string, t: string, i: nat)
    requires |t| <= |s| && t == s[..|t|] && IsFloatBlank(s[|t|..])
    requires i < |s| && IsSeparator(s[i])
    ensures i < |t| && t[i] == s[i]
  {
    assert forall m :: |t| <= m < |s| ==> s[|t|..][m - |t|] == s[m];
  }

  /**
   * When the text `float()` reads starts with a character that is not
   * whitespace at all, the stripped text starts with that same character.
   */
  lemma FloatStripStartsStrip(s: string)
    requires FloatStrip(s) != [] && !IsSpace(FloatStrip(s)[0])
    ensures !IsBlank(s) && Strip(s) != [] && Strip(s)[0] == FloatStrip(s)[0]
  {
    var k := FloatStripIsMiddle(s);
    assert s[k] == FloatStrip(s)[0];
    StripStartsAt(s, k);
  }

  /** Text with nothing for `float()` to skip on either side is read whole. */
  lemma FloatStripTrimmed(s: string)
    requires s == [] || (!IsFloatSpace(s[0]) && !IsFloatSpace(s[|s| - 1]))
    ensures FloatStrip(s) == s
  {
  }

  /** Text without outer whitespace is read whole by `float()`. */
  lemma TrimmedIsFloatTrimmed(s: string)
    requires IsTrimmed(s)
    ensures FloatStrip(s) == s
  {
    FloatStripTrimmed(s);
  }

  /** `float()` skips the same whitespace however often it is skipped. */
  lemma FloatStripIdempotent(s: string)
    ensures FloatStrip(FloatStrip(s)) == FloatStrip(s)
  {
    FloatStripTrimmed(FloatStrip(s));
  }

  /** Without information separators, the text `float()` reads is the stripped text. */
  lemma FloatStripIsStrip(s: string)
    requires HasNoSeparator(s)
    ensures FloatStrip(s) == Strip(s)
  {
    var u := TrimStart(s);
    FloatTrimStartIsTrimStart(s);
    NoSeparatorInSuffix(s, u);
    FloatTrimEndIsTrimEnd(u);
    assert FloatStrip(s) == FloatTrimEnd(u);
    assert Strip(s) == TrimEnd(u);
  }

  lemma NoSeparatorInSuffix(s: string, u: string)
    requires HasNoSeparator(s) && |u| <= |s| && u == s[|s| - |u|..]
    ensures HasNoSeparator(u)
  {
    assert forall i :: 0 <= i < |u| ==> u[i] == s[|s| - |u| + i];
  }

  lemma {:induction false} FloatTrimStartIsTrimStart(s: string)
    requires HasNoSeparator(s)
    ensures FloatTrimStart(s) == TrimStart(s)
    decreases |s|
  {
    if s != [] {
      TrimStartAt(s);
      if IsSpace(s[0]) {
        assert forall i :: 0 <= i < |s| - 1 ==> s[1..][i] == s[i + 1];
        FloatTrimStartIsTrimStart(s[1..]);
      }
    }
  }

  lemma {:induction false} FloatTrimEndIsTrimEnd(s: string)
    requires HasNoSeparator(s)
    ensures FloatTrimEnd(s) == TrimEnd(s)
    decreases |s|
  {
    if s != [] {
      TrimEndAt(s);
      if IsSpace(s[|s| - 1]) {
        assert forall i :: 0 <= i < |s| - 1 ==> s[..|s| - 1][i] == s[i];
        FloatTrimEndIsTrimEnd(s[..|s| - 1]);
      }
    }
  }
}
