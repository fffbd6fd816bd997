/**
 * The few Python `str` operations the application relies on: `isspace`,
 * `strip`, `lower` and `startswith`, over strings of Unicode scalar values.
 */
module Text {

  /**
   * Python's `str.isspace()` on one character. The same set is what `str.strip()`
   * removes and what the `\s` class of a `re` pattern matches.
   */
  predicate IsSpace(c: char) {
    || ('\t' <= c <= '\r')
    || ('\U{1C}' <= c <= '\U{1F}')
    || c == ' '
    || c == '\U{85}'
    || c == '\U{A0}'
    || c == '\U{1680}'
    || ('\U{2000}' <= c <= '\U{200A}')
    || c == '\U{2028}'
    || c == '\U{2029}'
    || c == '\U{202F}'
    || c == '\U{205F}'
    || c == '\U{3000}'
  }

  /** True when every character of `s` is whitespace (vacuously for ""). */
  predicate IsBlank(s: string) {
    forall i :: 0 <= i < |s| ==> IsSpace(s[i])
  }

  /** True when `s` neither starts nor ends with whitespace. */
  predicate IsTrimmed(s: string) {
    s == [] || (!IsSpace(s[0]) && !IsSpace(s[|s| - 1]))
  }

  /** `s.lstrip()`: drops the leading whitespace, keeps the rest as a suffix of `s`. */
  function TrimStart(s: string): (t: string)
    ensures |t| <= |s| && t == s[|s| - |t|..]
    ensures IsBlank(s[..|s| - |t|])
    ensures t == [] || !IsSpace(t[0])
  {
    if s != [] && IsSpace(s[0]) then
      var t := TrimStart(s[1..]);
      assert s[1..][|s| - 1 - |t|..] == s[|s| - |t|..];
      assert forall i :: 0 <= i < |s| - |t| ==> s[i] == (if i == 0 then s[0] else s[1..][i - 1]);
      t
    else s
  }

  /** `s.rstrip()`: drops the trailing whitespace, keeps the rest as a prefix of `s`. */
  function TrimEnd(s: string): (t: string)
    ensures |t| <= |s| && t == s[..|t|]
    ensures IsBlank(s[|t|..])
    ensures t == [] || !IsSpace(t[|t| - 1])
  {
    if s != [] && IsSpace(s[|s| - 1]) then
      var t := TrimEnd(s[..|s| - 1]);
      TrimEndStep(s, t);
      t
    else s
  }

  /** Dropping one more trailing whitespace character keeps the `TrimEnd` facts. */
  lemma TrimEndStep(s: string, t: string)
    requires s != [] && IsSpace(s[|s| - 1])
    requires |t| <= |s| - 1 && t == s[..|s| - 1][..|t|] && IsBlank(s[..|s| - 1][|t|..])
    ensures t == s[..|t|] && IsBlank(s[|t|..])
  {
    assert forall i :: |t| <= i < |s| - 1 ==> s[i] == s[..|s| - 1][|t|..][i - |t|];
    assert forall j :: 0 <= j < |s| - |t| ==> s[|t|..][j] == s[|t| + j];
  }

  /**
   * `s.strip()`: the piece of `s` left between its leading and its trailing
   * whitespace.
   */
  function Strip(s: string): (t: string)
    ensures |t| <= |s|
    ensures IsTrimmed(t)
    ensures t == [] <==> IsBlank(s)
  {
    var u := TrimStart(s);
    var t := TrimEnd(u);
    StripPieces(s, u, t);
    t
  }

  /** `strip()` keeps a contiguous piece of `s` and drops only whitespace on either side of it. */
  lemma StripIsMiddle(s: string)
    ensures var t := Strip(s);
      exists k :: 0 <= k <= |s| - |t| && t == s[k..k + |t|] && IsBlank(s[..k]) && IsBlank(s[k + |t|..])
  {
    StripPieces(s, TrimStart(s), Strip(s));
  }

  /** Both halves of a concatenation are blank, so the whole is. */
  lemma BlankConcat(x: string, y: string)
    requires IsBlank(x) && IsBlank(y)
    ensures IsBlank(x + y)
  {
    forall i | 0 <= i < |x + y|
      ensures IsSpace((x + y)[i])
    {
      if i < |x| {
        assert (x + y)[i] == x[i];
      } else {
        assert (x + y)[i] == y[i - |x|];
      }
    }
  }

  /** The facts about `lstrip` and `rstrip` that make their composition a strip. */
  lemma StripPieces(s: string, u: string, t: string)
    requires |u| <= |s| && u == s[|s| - |u|..] && IsBlank(s[..|s| - |u|]) && (u == [] || !IsSpace(u[0]))
    requires |t| <= |u| && t == u[..|t|] && IsBlank(u[|t|..]) && (t == [] || !IsSpace(t[|t| - 1]))
    ensures IsTrimmed(t)
    ensures t == [] <==> IsBlank(s)
    ensures exists k :: 0 <= k <= |s| - |t| && t == s[k..k + |t|] && IsBlank(s[..k]) && IsBlank(s[k + |t|..])
  {
    var k := |s| - |u|;
    StripPiecesAt(s, u, t);
    if t == [] {
      assert s == s[..k] + u[|t|..];
      BlankConcat(s[..k], u[|t|..]);
    } else {
      assert t[0] == s[k];
    }
  }

  /** Where the stripped text sits inside `s`: right after the leading whitespace. */
  lemma StripPiecesAt(s: string, u: string, t: string)
    requires |u| <= |s| && u == s[|s| - |u|..] && IsBlank(s[..|s| - |u|])
    requires |t| <= |u| && t == u[..|t|] && IsBlank(u[|t|..])
    ensures var k := |s| - |u|; t == s[k..k + |t|] && IsBlank(s[k + |t|..])
  {
    var k := |s| - |u|;
    assert s[k..][..|t|] == s[k..k + |t|];
    assert s[k..][|t|..] == s[k + |t|..];
  }

  /** When `s` has only whitespace before a non-whitespace `s[k]`, its stripped text starts with `s[k]`. */
  lemma StripStartsAt(s: string, k: nat)
    requires k < |s| && !IsSpace(s[k])
    requires forall i :: 0 <= i < k ==> IsSpace(s[i])
    ensures Strip(s) != [] && Strip(s)[0] == s[k]
  {
    var u := TrimStart(s);
    var j := |s| - |u|;
    assert forall i :: 0 <= i < j ==> s[..j][i] == s[i];
    assert u != [] ==> u[0] == s[j];
    assert j == k;
    var t := TrimEnd(u);
    assert Strip(s) == t;
  }

  /** A text that starts with a prefix without outer whitespace still starts with it after `strip()`. */
  lemma StripKeepsPrefix(p: string, rest: string)
    requires p != [] && IsTrimmed(p)
    ensures StartsWith(Strip(p + rest), p)
  {
    var s := p + rest;
    var t := Strip(s);
    StripIsMiddle(s);
    var k :| 0 <= k <= |s| - |t| && t == s[k..k + |t|] && IsBlank(s[..k]) && IsBlank(s[k + |t|..]);
    assert s[..|p|] == p;
    MiddleKeepsPrefix(s, t, p, k);
  }

  /** A middle piece with only whitespace around it keeps any prefix of the whole that has no outer whitespace. */
  lemma MiddleKeepsPrefix(s: string, t: string, p: string, k: nat)
    requires p != [] && IsTrimmed(p) && |p| <= |s| && s[..|p|] == p
    requires k + |t| <= |s| && t == s[k..k + |t|] && IsBlank(s[..k]) && IsBlank(s[k + |t|..])
    ensures StartsWith(t, p)
  {
    assert s[0] == p[0] && s[|p| - 1] == p[|p| - 1];
    assert k == 0;
    assert |t| >= |p|;
    assert t[..|p|] == s[..|p|];
  }

  /** Stripping leaves a string that has no outer whitespace unchanged. */
  lemma {:induction false} StripTrimmed(s: string)
    requires IsTrimmed(s)
    ensures Strip(s) == s
  {
  }

  /** `strip` is idempotent. */
  lemma StripIdempotent(s: string)
    ensures Strip(Strip(s)) == Strip(s)
  {
    StripTrimmed(Strip(s));
  }

  /**
   * The capitals `lower()` changes, as far as this model goes: Latin A-Z,
   * Cyrillic U+0400-U+042F (so `Ё` is one) and the Kelvin sign.
   */
  predicate IsUpper(c: char) {
    || ('A' <= c <= 'Z')
    || ('\U{0400}' <= c <= '\U{042F}')
    || c == '\U{212A}'
  }

  /**
   * Python's `str.lower()` on one character: a capital becomes its small
   * letter (the Kelvin sign becomes `k`), and every other character is
   * returned unchanged.
   */
  function LowerChar(c: char): char {
    if 'A' <= c <= 'Z' then (c as int + 32) as char
    else if '\U{0410}' <= c <= '\U{042F}' then (c as int + 32) as char
    else if '\U{0400}' <= c <= '\U{040F}' then (c as int + 80) as char
    else if c == '\U{212A}' then 'k'
    else c
  }

  /**
   * `lower()` changes exactly the capitals, leaves no capital behind, and
   * never turns whitespace into something else or back.
   */
  lemma LowerCharSpec(c: char)
    ensures LowerChar(c) != c <==> IsUpper(c)
    ensures !IsUpper(LowerChar(c))
    ensures IsSpace(LowerChar(c)) <==> IsSpace(c)
  {
  }

  /**
   * The small letters that are the lower case of a capital other than the
   * Kelvin sign: Latin a-z and Cyrillic U+0430-U+045F.
   */
  predicate IsSmall(c: char) {
    || ('a' <= c <= 'z')
    || ('\U{0430}' <= c <= '\U{045F}')
  }

  /** Python's `str.upper()` on a small letter, defined range by range. */
  function UpperChar(c: char): (u: char)
    requires IsSmall(c)
  {
    if 'a' <= c <= 'z' then (c as int - 32) as char
    else if '\U{0430}' <= c <= '\U{044F}' then (c as int - 32) as char
    else (c as int - 80) as char
  }

  /**
   * `lower()` sends each capital to the small letter whose upper case it is
   * (so 'A' to 'a', 'Д' to 'д', 'Ё' to 'ё'), and the Kelvin sign to 'k'; each
   * small letter goes back up to exactly one capital.
   */
  lemma LowerCharOfCapital(c: char)
    requires IsUpper(c)
    ensures c != '\U{212A}' ==> IsSmall(LowerChar(c)) && UpperChar(LowerChar(c)) == c
    ensures c == '\U{212A}' ==> LowerChar(c) == 'k'
  {
  }

  /** Every small letter is the lower case of its upper case. */
  lemma LowerOfUpperChar(c: char)
    requires IsSmall(c)
    ensures IsUpper(UpperChar(c)) && LowerChar(UpperChar(c)) == c
  {
  }

  /** `s.lower()`, character by character. */
  function Lower(s: string): (t: string)
    ensures |t| == |s|
    ensures forall i :: 0 <= i < |s| ==> t[i] == LowerChar(s[i])
  {
    seq(|s|, i requires 0 <= i < |s| => LowerChar(s[i]))
  }

  /**
   * `s.lower()` leaves no capital, keeps whitespace exactly where it was,
   * and keeps every character that is not a capital in place.
   */
  lemma LowerSpec(s: string)
    ensures forall i :: 0 <= i < |s| ==> !IsUpper(Lower(s)[i])
    ensures forall i :: 0 <= i < |s| ==> (IsSpace(Lower(s)[i]) <==> IsSpace(s[i]))
    ensures forall i :: 0 <= i < |s| && !IsUpper(s[i]) ==> Lower(s)[i] == s[i]
  {
    forall i | 0 <= i < |s|
      ensures !IsUpper(Lower(s)[i])
      ensures IsSpace(Lower(s)[i]) <==> IsSpace(s[i])
      ensures !IsUpper(s[i]) ==> Lower(s)[i] == s[i]
    {
      LowerCharSpec(s[i]);
    }
  }

  /** A text without capitals is its own lower case. */
  lemma LowerOfLowercase(s: string)
    requires forall i :: 0 <= i < |s| ==> !IsUpper(s[i])
    ensures Lower(s) == s
  {
    LowerSpec(s);
  }

  /** `lower()` is idempotent. */
  lemma LowerIdempotent(s: string)
    ensures Lower(Lower(s)) == Lower(s)
  {
    LowerSpec(s);
    LowerOfLowercase(Lower(s));
  }

  /** Lower-casing works character by character, so it commutes with dropping the first character. */
  lemma LowerTail(s: string)
    requires s != []
    ensures Lower(s)[1..] == Lower(s[1..]) && Lower(s)[0] == LowerChar(s[0])
  {
  }

  /** Lower-casing commutes with dropping the last character. */
  lemma LowerInit(s: string)
    requires s != []
    ensures Lower(s)[..|s| - 1] == Lower(s[..|s| - 1]) && Lower(s)[|s| - 1] == LowerChar(s[|s| - 1])
  {
  }

  /** `s.lower().lstrip() == s.lstrip().lower()`: lower-casing neither adds nor removes whitespace. */
  lemma {:induction false} TrimStartLower(s: string)
    ensures TrimStart(Lower(s)) == Lower(TrimStart(s))
    decreases |s|
  {
    if s != [] {
      var l := Lower(s);
      LowerTail(s);
      LowerCharSpec(s[0]);
      TrimStartAt(s);
      TrimStartAt(l);
      if IsSpace(s[0]) {
        TrimStartLower(s[1..]);
      }
    }
  }

  /** One step of `lstrip()`: a leading whitespace character goes, anything else stops it. */
  lemma TrimStartAt(s: string)
    requires s != []
    ensures TrimStart(s) == if IsSpace(s[0]) then TrimStart(s[1..]) else s
  {
  }

  /** `s.lower().rstrip() == s.rstrip().lower()`. */
  lemma {:induction false} TrimEndLower(s: string)
    ensures TrimEnd(Lower(s)) == Lower(TrimEnd(s))
    decreases |s|
  {
    if s != [] {
      LowerInit(s);
      LowerCharSpec(s[|s| - 1]);
      TrimEndAt(s);
      TrimEndAt(Lower(s));
      if IsSpace(s[|s| - 1]) {
        TrimEndLower(s[..|s| - 1]);
      }
    }
  }

  /** One step of `rstrip()`: a trailing whitespace character goes, anything else stops it. */
  lemma TrimEndAt(s: string)
    requires s != []
    ensures TrimEnd(s) == if IsSpace(s[|s| - 1]) then TrimEnd(s[..|s| - 1]) else s
  {
  }

  /** `s.lower().strip() == s.strip().lower()`. */
  lemma StripLower(s: string)
    ensures Strip(Lower(s)) == Lower(Strip(s))
  {
    TrimStartLower(s);
    TrimEndLower(TrimStart(s));
  }

  /** `s.startswith(prefix)`. */
  predicate StartsWith(s: string, prefix: string) {
    |prefix| <= |s| && s[..|prefix|] == prefix
  }

  /**
   * `s.lower().startswith(prefix)` for a lower-case `prefix`, compared
   * character by character.
   */
  predicate StartsWithIgnoringCase(s: string, prefix: string) {
    |prefix| <= |s| && forall i :: 0 <= i < |prefix| ==> LowerChar(s[i]) == prefix[i]
  }

  /** A text that starts with `scheme` starts, ignoring case, with the lower case of `scheme`. */
  lemma PrefixIgnoringCase(t: string, scheme: string, target: string)
    requires StartsWith(t, scheme) && Lower(scheme) == target
    ensures StartsWithIgnoringCase(t, target)
  {
    forall i | 0 <= i < |target| ensures LowerChar(t[i]) == target[i] {
      assert t[i] == t[..|scheme|][i];
    }
  }

  /** Comparing character by character is the same as lower-casing first. */
  lemma StartsWithIgnoringCaseIsLowerPrefix(s: string, prefix: string)
    ensures StartsWithIgnoringCase(s, prefix) <==> StartsWith(Lower(s), prefix)
  {
    if StartsWithIgnoringCase(s, prefix) {
      assert Lower(s)[..|prefix|] == prefix;
    }
    if StartsWith(Lower(s), prefix) {
      forall i | 0 <= i < |prefix| ensures LowerChar(s[i]) == prefix[i] {
        assert Lower(s)[..|prefix|][i] == prefix[i];
      }
    }
  }
}
