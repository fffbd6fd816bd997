/**
 * The slug normalizer (`slugify` in iai_logic.py): the key under which a
 * company's analysis is stored and looked up.
 */
module Slug {
  import opened Text

  /** What `slugify` returns when nothing of the name survives the filter. */
  const Fallback: string := "company"

  /** The characters of the filter's whitelist `[a-z0-9\-а-яё]`, whitespace aside. */
  predicate IsSlugChar(c: char) {
    || ('a' <= c <= 'z')
    || ('0' <= c <= '9')
    || c == '-'
    || ('а' <= c <= 'я')
    || c == 'ё'
  }

  /** Every character of `s` is whitelisted. */
  predicate AllSlugChars(s: string) {
    forall i :: 0 <= i < |s| ==> IsSlugChar(s[i])
  }

  /** Every character of `s` is whitelisted or whitespace: what the filter lets through. */
  predicate AllSlugCharsOrSpace(s: string) {
    forall i :: 0 <= i < |s| ==> IsSlugChar(s[i]) || IsSpace(s[i])
  }

  /**
   * `re.sub(r"[^a-z0-9\s\-а-яё]", "", s)`: keeps whitelisted characters and
   * whitespace, in order, and drops the rest; a text with nothing to drop is
   * left as it is.
   */
  function KeepSlugChars(s: string): (t: string)
    ensures |t| <= |s|
    ensures AllSlugCharsOrSpace(t)
    ensures AllSlugCharsOrSpace(s) ==> t == s
  {
    if s == [] then []
    else
      var rest := KeepSlugChars(s[1..]);
      assert AllSlugCharsOrSpace(s) ==> AllSlugCharsOrSpace(s[1..]) by {
        if AllSlugCharsOrSpace(s) {
          forall i | 0 <= i < |s[1..]| ensures IsSlugChar(s[1..][i]) || IsSpace(s[1..][i]) {
            assert s[1..][i] == s[i + 1];
          }
        }
      }
      (if IsSlugChar(s[0]) || IsSpace(s[0]) then [s[0]] else []) + rest
  }

  /** The filter works character by character, so it distributes over concatenation. */
  lemma {:induction false} KeepSlugCharsAppend(a: string, b: string)
    ensures KeepSlugChars(a + b) == KeepSlugChars(a) + KeepSlugChars(b)
    decreases |a|
  {
    if a == [] {
      assert a + b == b;
    } else {
      var head := if IsSlugChar(a[0]) || IsSpace(a[0]) then [a[0]] else [];
      assert (a + b)[0] == a[0] && (a + b)[1..] == a[1..] + b;
      KeepSlugCharsAppend(a[1..], b);
      assert head + (KeepSlugChars(a[1..]) + KeepSlugChars(b)) == (head + KeepSlugChars(a[1..])) + KeepSlugChars(b);
    }
  }

  /** A character outside the whitelist that is not whitespace is removed. */
  lemma KeepSlugCharsDrops(c: char)
    requires !IsSlugChar(c) && !IsSpace(c)
    ensures KeepSlugChars([c]) == []
  {
    assert [c][1..] == [];
  }

  /**
   * The piece `re.sub(r"\s+", "-", s)` puts in place of the first character
   * of `s`: the character itself when it is not whitespace, and otherwise a
   * hyphen if it ends its run of whitespace and nothing if more follows.
   */
  function DashHead(s: string): (h: string)
    requires s != []
  {
    if !IsSpace(s[0]) then [s[0]]
    else if |s| >= 2 && IsSpace(s[1]) then []
    else "-"
  }

  /**
   * `re.sub(r"\s+", "-", s)`, read left to right: the characters that are not
   * whitespace are kept and each maximal run of whitespace gives one hyphen,
   * placed where the run ends.
   */
  function DashSpaceRuns(s: string): (t: string)
    ensures t == [] <==> s == []
  {
    if s == [] then [] else DashHead(s) + DashSpaceRuns(s[1..])
  }

  lemma ConsSlugChars(c: char, s: string)
    requires IsSlugChar(c) && AllSlugChars(s)
    ensures AllSlugChars([c] + s)
  {
  }

  /** Once only whitelisted characters and whitespace are left, no whitespace run leaves anything else. */
  lemma {:induction false} DashSpaceRunsSlugChars(s: string)
    requires AllSlugCharsOrSpace(s)
    ensures AllSlugChars(DashSpaceRuns(s))
    decreases |s|
  {
    if s != [] {
      DashSpaceRunsSlugChars(s[1..]);
      var h := DashHead(s);
      var t := DashSpaceRuns(s[1..]);
      forall i | 0 <= i < |h + t| ensures IsSlugChar((h + t)[i]) {
        if i >= |h| {
          assert (h + t)[i] == t[i - |h|];
        }
      }
    }
  }

  /** `s.replace("--", "-")`: one left-to-right pass over non-overlapping pairs. */
  function HalveDoubleHyphens(s: string): string {
    if |s| >= 2 && s[0] == '-' && s[1] == '-' then "-" + HalveDoubleHyphens(s[2..])
    else if s == [] then []
    else [s[0]] + HalveDoubleHyphens(s[1..])
  }

  /** The replace pass never lengthens the text, and empties only the empty text. */
  lemma {:induction false} HalveDoubleHyphensLength(s: string)
    ensures |HalveDoubleHyphens(s)| <= |s|
    ensures HalveDoubleHyphens(s) == [] <==> s == []
    decreases |s|
  {
    if |s| >= 2 && s[0] == '-' && s[1] == '-' {
      HalveDoubleHyphensLength(s[2..]);
    } else if s != [] {
      HalveDoubleHyphensLength(s[1..]);
    }
  }

  /** The replace pass introduces no character that was not whitelisted. */
  lemma {:induction false} HalveDoubleHyphensSlugChars(s: string)
    requires AllSlugChars(s)
    ensures AllSlugChars(HalveDoubleHyphens(s))
    decreases |s|
  {
    if |s| >= 2 && s[0] == '-' && s[1] == '-' {
      HalveDoubleHyphensSlugChars(s[2..]);
      ConsSlugChars('-', HalveDoubleHyphens(s[2..]));
    } else if s != [] {
      HalveDoubleHyphensSlugChars(s[1..]);
      ConsSlugChars(s[0], HalveDoubleHyphens(s[1..]));
    }
  }

  /** The name after trimming, lower-casing and the whitelist filter. */
  function Cleaned(name: string): string {
    KeepSlugChars(Lower(Strip(name)))
  }

  /**
   * `slugify(name)`: never empty, made of whitelisted characters only, and the
   * fallback exactly when the filter leaves nothing.
   */
  function Slugify(name: string): (slug: string)
    ensures slug != []
    ensures AllSlugChars(slug)
    ensures Cleaned(name) == [] ==> slug == Fallback
  {
    var s := HalveDoubleHyphens(DashSpaceRuns(Cleaned(name)));
    PassesAreSlug(Cleaned(name));
    FallbackIsSlug();
    if s == [] then Fallback else s
  }

  /** The dash and replace passes keep the filter's output inside the whitelist. */
  lemma PassesAreSlug(cleaned: string)
    requires AllSlugCharsOrSpace(cleaned)
    ensures AllSlugChars(HalveDoubleHyphens(DashSpaceRuns(cleaned)))
    ensures cleaned == [] ==> HalveDoubleHyphens(DashSpaceRuns(cleaned)) == []
  {
    DashSpaceRunsSlugChars(cleaned);
    HalveDoubleHyphensSlugChars(DashSpaceRuns(cleaned));
  }

  lemma FallbackIsSlug()
    ensures Fallback != [] && AllSlugChars(Fallback)
  {
  }

  /** The characters of `s` that are neither hyphens nor whitespace, in order. */
  function Letters(s: string): string {
    if s == [] then []
    else (if s[0] == '-' || IsSpace(s[0]) then [] else [s[0]]) + Letters(s[1..])
  }

  lemma {:induction false} LettersDashSpaceRuns(s: string)
    ensures Letters(DashSpaceRuns(s)) == Letters(s)
    decreases |s|
  {
    if s != [] {
      LettersDashSpaceRuns(s[1..]);
      var t := DashSpaceRuns(s[1..]);
      if DashHead(s) == [] {
        assert DashSpaceRuns(s) == t;
      } else {
        assert (DashHead(s) + t)[1..] == t;
      }
    }
  }

  lemma {:induction false} LettersHalveDoubleHyphens(s: string)
    ensures Letters(HalveDoubleHyphens(s)) == Letters(s)
    decreases |s|
  {
    if |s| >= 2 && s[0] == '-' && s[1] == '-' {
      LettersHalveDoubleHyphens(s[2..]);
      assert ("-" + HalveDoubleHyphens(s[2..]))[1..] == HalveDoubleHyphens(s[2..]);
      assert s[1..][1..] == s[2..];
    } else if s != [] {
      LettersHalveDoubleHyphens(s[1..]);
      assert ([s[0]] + HalveDoubleHyphens(s[1..]))[1..] == HalveDoubleHyphens(s[1..]);
    }
  }

  /**
   * Whatever survives the filter survives into the slug: apart from hyphens
   * and whitespace, the slug holds exactly the filtered name's characters, in order.
   */
  lemma SlugKeepsContent(name: string)
    ensures Cleaned(name) != [] ==> Letters(Slugify(name)) == Letters(Cleaned(name))
  {
    LettersDashSpaceRuns(Cleaned(name));
    LettersHalveDoubleHyphens(DashSpaceRuns(Cleaned(name)));
    HalveDoubleHyphensLength(DashSpaceRuns(Cleaned(name)));
  }

  /** A blank name (empty after trimming) yields the fallback slug. */
  lemma SlugOfBlank(name: string)
    requires IsBlank(name)
    ensures Slugify(name) == Fallback
  {
    assert Strip(name) == [];
  }

  /** No whitespace survives: every slug character is outside Python's whitespace set. */
  lemma SlugHasNoSpace(name: string)
    ensures forall i :: 0 <= i < |Slugify(name)| ==> !IsSpace(Slugify(name)[i])
  {
    var slug := Slugify(name);
    forall i | 0 <= i < |slug|
      ensures !IsSpace(slug[i])
    {
      SlugCharNotSpace(slug[i]);
    }
  }

  lemma SlugCharNotSpace(c: char)
    requires IsSlugChar(c)
    ensures !IsSpace(c)
  {
  }

  /** A run of `k` hyphens. */
  function Hyphens(k: nat): (h: string)
    ensures |h| == k
    ensures forall i :: 0 <= i < k ==> h[i] == '-'
  {
    seq(k, _ => '-')
  }

  lemma HalveAtPair(s: string)
    requires |s| >= 2 && s[0] == '-' && s[1] == '-'
    ensures HalveDoubleHyphens(s) == "-" + HalveDoubleHyphens(s[2..])
  {
  }

  lemma HalveAtLoneHyphen(s: string)
    requires s != [] && s[0] == '-' && (|s| == 1 || s[1] != '-')
    ensures HalveDoubleHyphens(s) == "-" + HalveDoubleHyphens(s[1..])
  {
  }

  lemma HyphensDropTwo(k: nat, rest: string)
    requires k >= 2
    ensures var s := Hyphens(k) + rest; |s| >= 2 && s[0] == '-' && s[1] == '-' && s[2..] == Hyphens(k - 2) + rest
  {
    var s := Hyphens(k) + rest;
    assert s[2..] == Hyphens(k - 2) + rest;
  }

  lemma HyphensConsOne(k: nat)
    requires k >= 1
    ensures Hyphens(k) == "-" + Hyphens(k - 1)
  {
  }

  /**
   * The single replace pass halves each run of hyphens, rounding up: a run of
   * `k` becomes a run of `(k + 1) / 2`, so runs of three or more are shortened
   * but not collapsed.
   */
  lemma {:induction false} HalveHyphenRun(k: nat, rest: string)
    requires rest == [] || rest[0] != '-'
    ensures HalveDoubleHyphens(Hyphens(k) + rest) == Hyphens((k + 1) / 2) + HalveDoubleHyphens(rest)
    decreases k
  {
    if k >= 2 {
      HalveHyphenRun(k - 2, rest);
      HalveHyphenRunStep(k, rest);
    } else if k == 1 {
      HalveLoneHyphen(rest);
    } else {
      assert Hyphens(0) + rest == rest;
    }
  }

  lemma HalveHyphenRunStep(k: nat, rest: string)
    requires k >= 2
    requires HalveDoubleHyphens(Hyphens(k - 2) + rest) == Hyphens((k - 1) / 2) + HalveDoubleHyphens(rest)
    ensures HalveDoubleHyphens(Hyphens(k) + rest) == Hyphens((k + 1) / 2) + HalveDoubleHyphens(rest)
  {
    var s := Hyphens(k) + rest;
    HyphensDropTwo(k, rest);
    HalveAtPair(s);
    HyphensConsOne((k + 1) / 2);
    assert "-" + (Hyphens((k - 1) / 2) + HalveDoubleHyphens(rest))
        == ("-" + Hyphens((k - 1) / 2)) + HalveDoubleHyphens(rest);
  }

  lemma HalveLoneHyphen(rest: string)
    requires rest == [] || rest[0] != '-'
    ensures HalveDoubleHyphens(Hyphens(1) + rest) == Hyphens(1) + HalveDoubleHyphens(rest)
  {
    var s := Hyphens(1) + rest;
    assert s[0] == '-' && s[1..] == rest;
    HalveAtLoneHyphen(s);
  }

  /** Three hyphens in a row come out as two. */
  lemma ThreeHyphensLeaveTwo()
    ensures HalveDoubleHyphens("---") == "--"
  {
    HalveHyphenRun(3, "");
    assert Hyphens(3) + "" == "---";
    assert Hyphens(2) + "" == "--";
  }

  lemma StripHyphens(k: nat)
    requires k >= 1
    ensures Strip(Hyphens(k)) == Hyphens(k)
  {
    var h := Hyphens(k);
    assert h[0] == '-' && h[|h| - 1] == '-';
    StripTrimmed(h);
  }

  lemma LowerHyphens(k: nat)
    ensures Lower(Hyphens(k)) == Hyphens(k)
  {
  }

  lemma KeepHyphens(k: nat)
    ensures KeepSlugChars(Hyphens(k)) == Hyphens(k)
  {
    assert AllSlugCharsOrSpace(Hyphens(k));
  }

  lemma DashHyphens(k: nat)
    ensures DashSpaceRuns(Hyphens(k)) == Hyphens(k)
  {
    DashNoSpace(Hyphens(k));
  }

  lemma CleanedHyphens(k: nat)
    requires k >= 1
    ensures Cleaned(Hyphens(k)) == Hyphens(k)
  {
    StripHyphens(k);
    LowerHyphens(k);
    KeepHyphens(k);
  }

  lemma HalveHyphens(k: nat)
    ensures HalveDoubleHyphens(Hyphens(k)) == Hyphens((k + 1) / 2)
  {
    HalveHyphenRun(k, "");
    assert Hyphens(k) + "" == Hyphens(k);
    assert HalveDoubleHyphens("") == "";
    assert Hyphens((k + 1) / 2) + "" == Hyphens((k + 1) / 2);
  }

  /**
   * A name that cleans to a run of hyphens keeps half of them, rounded up:
   * leading and trailing hyphens survive, and a run of three leaves a double
   * hyphen. Since a run of hyphens cleans to itself (`CleanedHyphens`), the
   * slug of "---" is "--" and the slug of that is "-": `slugify` is not
   * idempotent.
   */
  lemma SlugOfHyphens(name: string, k: nat)
    requires k >= 1 && Cleaned(name) == Hyphens(k)
    ensures Slugify(name) == Hyphens((k + 1) / 2)
  {
    PassesOfHyphens(k);
    SlugOfPasses(name, Hyphens(k), Hyphens((k + 1) / 2));
  }

  /** A name whose cleaned form comes out of the two passes non-empty gets that as its slug. */
  lemma SlugOfPasses(name: string, cleaned: string, slug: string)
    requires Cleaned(name) == cleaned
    requires HalveDoubleHyphens(DashSpaceRuns(cleaned)) == slug && slug != []
    ensures Slugify(name) == slug
  {
  }

  lemma PassesOfHyphens(k: nat)
    requires k >= 1
    ensures HalveDoubleHyphens(DashSpaceRuns(Hyphens(k))) == Hyphens((k + 1) / 2)
    ensures Hyphens((k + 1) / 2) != []
  {
    DashHyphens(k);
    HalveHyphens(k);
  }

  /** No character of `s` is whitespace. */
  predicate NoSpace(s: string) {
    forall i :: 0 <= i < |s| ==> !IsSpace(s[i])
  }

  /** No character of `s` is a hyphen. */
  predicate NoHyphen(s: string) {
    forall i :: 0 <= i < |s| ==> s[i] != '-'
  }

  /** A text without whitespace passes the run replacement unchanged. */
  lemma {:induction false} DashNoSpace(s: string)
    requires NoSpace(s)
    ensures DashSpaceRuns(s) == s
    decreases |s|
  {
    if s != [] {
      assert NoSpace(s[1..]) by {
        forall i | 0 <= i < |s[1..]| ensures !IsSpace(s[1..][i]) {
          assert s[1..][i] == s[i + 1];
        }
      }
      DashNoSpace(s[1..]);
      assert DashHead(s) == [s[0]];
      assert s == [s[0]] + s[1..];
    }
  }

  /** No whitespace is left after the run replacement. */
  lemma {:induction false} DashSpaceRunsNoSpace(s: string)
    ensures NoSpace(DashSpaceRuns(s))
    decreases |s|
  {
    if s != [] {
      DashSpaceRunsNoSpace(s[1..]);
      var h := DashHead(s);
      var t := DashSpaceRuns(s[1..]);
      forall i | 0 <= i < |h + t| ensures !IsSpace((h + t)[i]) {
        if i >= |h| {
          assert (h + t)[i] == t[i - |h|];
        }
      }
    }
  }

  /** A non-empty run of whitespace on its own becomes a single hyphen. */
  lemma {:induction false} DashBlank(w: string)
    requires w != [] && IsBlank(w)
    ensures DashSpaceRuns(w) == "-"
    decreases |w|
  {
    if |w| >= 2 {
      assert IsSpace(w[1]) && w[1..][0] == w[1];
      DashBlank(w[1..]);
      assert DashHead(w) == [];
    } else {
      assert w[1..] == [];
    }
  }

  /**
   * The run replacement works run by run: it can be applied to the two sides
   * of any cut that does not fall inside a run of whitespace. With
   * `DashBlank` and `DashNoSpace`, this says that each maximal run of
   * whitespace becomes exactly one hyphen and nothing else changes.
   */
  lemma {:induction false} DashSpaceRunsAppend(a: string, b: string)
    requires a == [] || b == [] || !IsSpace(a[|a| - 1]) || !IsSpace(b[0])
    ensures DashSpaceRuns(a + b) == DashSpaceRuns(a) + DashSpaceRuns(b)
    decreases |a|
  {
    if a == [] {
      assert a + b == b;
    } else if b == [] {
      assert a + b == a;
    } else {
      assert a[1..] == [] || a[1..][|a[1..]| - 1] == a[|a| - 1];
      DashSpaceRunsAppend(a[1..], b);
      DashAppendStep(a, b);
    }
  }

  /**
   * A maximal run of whitespace between two pieces becomes exactly one hyphen,
   * and the two pieces are replaced on their own.
   */
  lemma DashRunBetween(a: string, w: string, b: string)
    requires w != [] && IsBlank(w)
    requires a == [] || !IsSpace(a[|a| - 1])
    requires b == [] || !IsSpace(b[0])
    ensures DashSpaceRuns(a + (w + b)) == DashSpaceRuns(a) + ("-" + DashSpaceRuns(b))
  {
    DashBlank(w);
    DashSpaceRunsAppend(w, b);
    DashSpaceRunsAppend(a, w + b);
  }

  lemma DashAppendStep(a: string, b: string)
    requires a != [] && b != []
    requires !IsSpace(a[|a| - 1]) || !IsSpace(b[0])
    requires DashSpaceRuns(a[1..] + b) == DashSpaceRuns(a[1..]) + DashSpaceRuns(b)
    ensures DashSpaceRuns(a + b) == DashSpaceRuns(a) + DashSpaceRuns(b)
  {
    var ab := a + b;
    var h, x, y := DashHead(a), DashSpaceRuns(a[1..]), DashSpaceRuns(b);
    TailOfConcat(a, b);
    DashHeadOfAppend(a, b);
    DashAt(ab);
    DashAt(a);
    ConcatAssoc(h, x, y);
    calc {
      DashSpaceRuns(ab);
      DashHead(ab) + DashSpaceRuns(ab[1..]);
      h + DashSpaceRuns(a[1..] + b);
      h + (x + y);
      (h + x) + y;
      DashSpaceRuns(a) + y;
    }
  }

  lemma DashAt(s: string)
    requires s != []
    ensures DashSpaceRuns(s) == DashHead(s) + DashSpaceRuns(s[1..])
  {
  }

  lemma TailOfConcat(a: string, b: string)
    requires a != []
    ensures (a + b)[1..] == a[1..] + b
  {
  }

  lemma ConcatAssoc(x: string, y: string, z: string)
    ensures x + (y + z) == (x + y) + z
  {
  }

  /** Away from a run of whitespace across the cut, `b` does not change the first piece of `a`. */
  lemma DashHeadOfAppend(a: string, b: string)
    requires a != [] && b != []
    requires !IsSpace(a[|a| - 1]) || !IsSpace(b[0])
    ensures DashHead(a + b) == DashHead(a)
  {
    assert (a + b)[0] == a[0];
    if |a| >= 2 {
      assert (a + b)[1] == a[1];
    } else {
      assert (a + b)[1] == b[0];
    }
  }

  /** A text without hyphens passes the replace pass unchanged. */
  lemma {:induction false} HalveNoHyphen(s: string)
    requires NoHyphen(s)
    ensures HalveDoubleHyphens(s) == s
    decreases |s|
  {
    if s != [] {
      assert s[0] != '-';
      assert NoHyphen(s[1..]) by {
        forall i | 0 <= i < |s[1..]| ensures s[1..][i] != '-' {
          assert s[1..][i] == s[i + 1];
        }
      }
      HalveNoHyphen(s[1..]);
      assert s == [s[0]] + s[1..];
    }
  }

  /** A prefix without hyphens passes the replace pass unchanged, whatever follows it. */
  lemma {:induction false} HalveAfterNoHyphen(a: string, rest: string)
    requires NoHyphen(a)
    ensures HalveDoubleHyphens(a + rest) == a + HalveDoubleHyphens(rest)
    decreases |a|
  {
    if a == [] {
      assert a + rest == rest;
    } else {
      assert NoHyphen(a[1..]) by {
        forall i | 0 <= i < |a[1..]| ensures a[1..][i] != '-' {
          assert a[1..][i] == a[i + 1];
        }
      }
      HalveAfterNoHyphen(a[1..], rest);
      HalveStepOther(a, rest);
    }
  }

  lemma HalveStepOther(a: string, rest: string)
    requires a != [] && a[0] != '-'
    requires HalveDoubleHyphens(a[1..] + rest) == a[1..] + HalveDoubleHyphens(rest)
    ensures HalveDoubleHyphens(a + rest) == a + HalveDoubleHyphens(rest)
  {
    var s := a + rest;
    assert s[0] == a[0] && s[1..] == a[1..] + rest;
    HalveAtOther(s);
    var x := HalveDoubleHyphens(rest);
    assert [a[0]] + (a[1..] + x) == a + x;
  }

  lemma HalveAtOther(s: string)
    requires s != [] && s[0] != '-'
    ensures HalveDoubleHyphens(s) == [s[0]] + HalveDoubleHyphens(s[1..])
  {
  }

  /** A word: a non-empty run of whitelisted characters other than the hyphen. */
  predicate IsWord(s: string) {
    s != [] && forall i :: 0 <= i < |s| ==> IsSlugChar(s[i]) && s[i] != '-'
  }

  lemma SlugCharIsLower(c: char)
    requires IsSlugChar(c) || IsSpace(c)
    ensures !IsUpper(c)
  {
  }

  lemma SlugTextIsLower(s: string)
    requires AllSlugCharsOrSpace(s)
    ensures forall i :: 0 <= i < |s| ==> !IsUpper(s[i])
  {
    forall i | 0 <= i < |s| ensures !IsUpper(s[i]) {
      SlugCharIsLower(s[i]);
    }
  }

  lemma LowerOfSlugText(s: string)
    requires AllSlugCharsOrSpace(s)
    ensures Lower(s) == s
  {
    SlugTextIsLower(s);
    LowerOfLowercase(s);
  }

  /** A text of whitelisted characters and whitespace with no outer whitespace is its own cleaned form. */
  lemma CleanedOfClean(s: string)
    requires AllSlugCharsOrSpace(s) && IsTrimmed(s)
    ensures Cleaned(s) == s
  {
    StripTrimmed(s);
    LowerOfSlugText(s);
  }

  /** The spaced hyphen between two words, with the words' characters whitelisted. */
  lemma SpacedHyphenShape(a: string, b: string)
    requires IsWord(a) && IsWord(b)
    ensures AllSlugCharsOrSpace(a + " - " + b) && IsTrimmed(a + " - " + b)
  {
    var s := a + " - " + b;
    forall i | 0 <= i < |s| ensures IsSlugChar(s[i]) || IsSpace(s[i]) {
      if i < |a| {
        assert s[i] == a[i];
      } else if i >= |a| + 3 {
        assert s[i] == b[i - |a| - 3];
      }
    }
    assert s[0] == a[0] && s[|s| - 1] == b[|b| - 1];
  }

  /** The words of a spaced hyphen have no whitespace and no hyphen. */
  lemma WordIsBare(a: string)
    requires IsWord(a)
    ensures NoSpace(a) && NoHyphen(a)
  {
    forall i | 0 <= i < |a| ensures !IsSpace(a[i]) {
      SlugCharNotSpace(a[i]);
    }
  }

  lemma DashSpaceThenWord(b: string)
    requires IsWord(b)
    ensures DashSpaceRuns(" " + b) == "-" + b
  {
    WordIsBare(b);
    DashNoSpace(b);
    DashBlank(" ");
    DashSpaceRunsAppend(" ", b);
  }

  lemma DashHyphenThenMore(rest: string)
    ensures DashSpaceRuns("-" + rest) == "-" + DashSpaceRuns(rest)
  {
    DashNoSpace("-");
    DashSpaceRunsAppend("-", rest);
  }

  lemma DashSpaceThenHyphen(rest: string)
    requires rest != [] && rest[0] == '-'
    ensures DashSpaceRuns(" " + rest) == "-" + DashSpaceRuns(rest)
  {
    DashBlank(" ");
    DashSpaceRunsAppend(" ", rest);
  }

  lemma DashSpacedTail(b: string)
    requires IsWord(b)
    ensures DashSpaceRuns(" " + ("-" + (" " + b))) == "-" + ("-" + ("-" + b))
  {
    DashSpaceThenWord(b);
    DashHyphenThenMore(" " + b);
    DashSpaceThenHyphen("-" + (" " + b));
  }

  lemma HyphenForms(b: string)
    ensures "-" + ("-" + ("-" + b)) == Hyphens(3) + b
    ensures Hyphens(2) + b == "--" + b
  {
  }

  lemma SpacedHyphenForms(a: string, b: string)
    ensures a + " - " + b == a + (" " + ("-" + (" " + b)))
    ensures a + ("--" + b) == a + "--" + b
  {
  }

  lemma DashSpacedHyphen(a: string, b: string)
    requires IsWord(a) && IsWord(b)
    ensures DashSpaceRuns(a + (" " + ("-" + (" " + b)))) == a + (Hyphens(3) + b)
  {
    DashSpacedTail(b);
    HyphenForms(b);
    WordIsBare(a);
    DashNoSpace(a);
    DashSpaceRunsAppend(a, " " + ("-" + (" " + b)));
  }

  lemma HalveSpacedHyphen(a: string, b: string)
    requires IsWord(a) && IsWord(b)
    ensures HalveDoubleHyphens(a + (Hyphens(3) + b)) == a + ("--" + b)
  {
    WordIsBare(a);
    WordIsBare(b);
    HalveAfterNoHyphen(a, Hyphens(3) + b);
    HalveHyphenRun(3, b);
    HalveNoHyphen(b);
    HyphenForms(b);
  }

  /** Two names that clean to the same text get the same slug. */
  lemma SameCleanedSameSlug(a: string, b: string)
    requires Cleaned(a) == Cleaned(b)
    ensures Slugify(a) == Slugify(b)
  {
  }

  /** Lower-casing a name first changes nothing in its cleaned form. */
  lemma CleanedOfLower(name: string)
    ensures Cleaned(Lower(name)) == Cleaned(name)
  {
    StripLower(name);
    LowerIdempotent(Strip(name));
  }

  /** `slugify` ignores case: a name and its lower case get the same slug. */
  lemma SlugIgnoresCase(name: string)
    ensures Slugify(Lower(name)) == Slugify(name)
  {
    CleanedOfLower(name);
    SameCleanedSameSlug(Lower(name), name);
  }

  /** Names that differ only in case get the same slug. */
  lemma SlugOfSameLower(a: string, b: string)
    requires Lower(a) == Lower(b)
    ensures Slugify(a) == Slugify(b)
  {
    SlugIgnoresCase(a);
    SlugIgnoresCase(b);
  }

  /** "ACME" and "acme" get the same slug. */
  lemma SlugOfAcme()
    ensures Slugify("ACME") == Slugify("acme")
  {
    assert Lower("ACME") == Lower("acme");
    SlugOfSameLower("ACME", "acme");
  }

  /**
   * Two words around a spaced hyphen keep a double hyphen in the slug (the
   * name "a - b" gets "a--b"): the spaces become hyphens first, and the
   * single replace pass shortens the run of three to two.
   */
  lemma SlugOfSpacedHyphen(a: string, b: string)
    requires IsWord(a) && IsWord(b)
    ensures Slugify(a + " - " + b) == a + "--" + b
  {
    var name := a + " - " + b;
    SpacedHyphenShape(a, b);
    CleanedOfClean(name);
    SpacedHyphenForms(a, b);
    DashSpacedHyphen(a, b);
    HalveSpacedHyphen(a, b);
    SlugOfPasses(name, name, a + "--" + b);
  }
}
