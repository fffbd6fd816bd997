/**
 * The IAI aggregator (`calculate_iai`): a weighted average over the six
 * sub-index codes, re-normalised over the codes that report a positive score.
 */
module Scoring {
  import opened Wrappers
  import opened Records
  import opened Text
  import opened FloatSpace
  import opened Coercion
  import opened Rounding

  /**
   * `WEIGHTS_IAI`, in its declaration order. The weights add up to 1.05,
   * not 1; nothing below depends on their sum.
   */
  const Weights: seq<(string, real)> := [
    ("FSI", 0.30),
    ("MPI", 0.25),
    ("PTI", 0.20),
    ("TMI", 0.15),
    ("RRI", 0.10),
    ("PI", 0.05)
  ]

  /** True when `code` is one of the six weighted codes. */
  predicate IsCode(code: string) {
    exists i :: 0 <= i < |Weights| && Weights[i].0 == code
  }

  /**
   * The score `calculate_iai` reads for `code`: the coerced `score` field, and 0
   * when the block is missing or its score is not a number. A score other
   * than 0 always comes from a block whose score converts to it.
   */
  function ScoreOf(subindices: map<string, SubIndex>, code: string): (score: real)
    ensures code !in subindices ==> score == 0.0
    ensures code in subindices && ToFloat(subindices[code].score).None? ==> score == 0.0
    ensures score != 0.0 ==> code in subindices && ToFloat(subindices[code].score) == Some(score)
    ensures code in subindices && ToFloat(subindices[code].score).Some? ==> score == ToFloat(subindices[code].score).value
  {
    if code !in subindices then 0.0
    else match ToFloat(subindices[code].score)
      case Some(x) => x
      case None => 0.0
  }

  /** A score written as a whole number in a string counts as that number. */
  lemma ScoreOfDigitString(subindices: map<string, SubIndex>, code: string, n: nat)
    requires code in subindices && subindices[code].score == Str(Digits(n))
    ensures ScoreOf(subindices, code) == n as real
  {
    ParseFloatOfDigits(n);
  }

  /**
   * A string score that `float()` refuses, for a character other than a
   * digit or the point, counts as 0.
   */
  lemma ScoreOfNonNumericString(subindices: map<string, SubIndex>, code: string, text: string, i: nat)
    requires code in subindices && subindices[code].score == Str(text)
    requires i < |FloatStrip(text)| && !IsDigit(FloatStrip(text)[i]) && FloatStrip(text)[i] != '.'
    requires i > 0 || (FloatStrip(text)[i] != '+' && FloatStrip(text)[i] != '-')
    ensures ScoreOf(subindices, code) == 0.0
  {
    ParseFloatRefusesStray(text, i);
  }

  /** The score "нет данных" counts as 0. */
  lemma ScoreOfNoData(subindices: map<string, SubIndex>, code: string)
    requires code in subindices && subindices[code].score == Str("нет данных")
    ensures ScoreOf(subindices, code) == 0.0
  {
    ParseFloatOfNoData();
  }

  /** A boolean score counts as 1 when true and as 0 when false. */
  lemma ScoreOfBool(subindices: map<string, SubIndex>, code: string, b: bool)
    requires code in subindices && subindices[code].score == Bool(b)
    ensures ScoreOf(subindices, code) == if b then 1.0 else 0.0
  {
  }

  /** A score given as a JSON number counts as that number, whatever its sign. */
  lemma ScoreOfNumber(subindices: map<string, SubIndex>, code: string, x: real)
    requires code in subindices && subindices[code].score == Number(x)
    ensures ScoreOf(subindices, code) == x
  {
  }

  /** A string score holding an information separator counts as 0, even where `strip()` would drop it. */
  lemma ScoreOfSeparatorString(subindices: map<string, SubIndex>, code: string, text: string, i: nat)
    requires code in subindices && subindices[code].score == Str(text)
    requires i < |text| && IsSeparator(text[i])
    ensures ScoreOf(subindices, code) == 0.0
  {
    ParseFloatRefusesSeparator(text, i);
  }

  /** The (score, weight) term of each code of `ws`, in order. */
  function Terms(subindices: map<string, SubIndex>, ws: seq<(string, real)>): (terms: seq<(real, real)>)
    ensures |terms| == |ws|
    ensures forall i :: 0 <= i < |ws| ==> terms[i] == (ScoreOf(subindices, ws[i].0), ws[i].1)
  {
    seq(|ws|, i requires 0 <= i < |ws| => (ScoreOf(subindices, ws[i].0), ws[i].1))
  }

  /** The sum of score times weight over the terms with a positive score. */
  function WeightedSum(terms: seq<(real, real)>): real {
    if terms == [] then 0.0
    else (if terms[0].0 > 0.0 then terms[0].0 * terms[0].1 else 0.0) + WeightedSum(terms[1..])
  }

  /** The sum of the weights of the terms with a positive score. */
  function TotalWeight(terms: seq<(real, real)>): real {
    if terms == [] then 0.0
    else (if terms[0].0 > 0.0 then terms[0].1 else 0.0) + TotalWeight(terms[1..])
  }

  ghost predicate PositiveWeights(terms: seq<(real, real)>) {
    forall i :: 0 <= i < |terms| ==> terms[i].1 > 0.0
  }

  /** Some term has a positive score. */
  predicate AnyPositive(terms: seq<(real, real)>) {
    exists i :: 0 <= i < |terms| && terms[i].0 > 0.0
  }

  /** Some of the six codes reports a positive score. */
  predicate HasSignal(subindices: map<string, SubIndex>) {
    exists i :: 0 <= i < |Weights| && ScoreOf(subindices, Weights[i].0) > 0.0
  }

  /** Every positive score among the terms is at least `lo`. */
  ghost predicate PositiveScoresAtLeast(terms: seq<(real, real)>, lo: real) {
    forall i :: 0 <= i < |terms| && terms[i].0 > 0.0 ==> lo <= terms[i].0
  }

  /** Every positive score among the terms is at most `hi`. */
  ghost predicate PositiveScoresAtMost(terms: seq<(real, real)>, hi: real) {
    forall i :: 0 <= i < |terms| && terms[i].0 > 0.0 ==> terms[i].0 <= hi
  }

  /** The total weight is positive exactly when some score is. */
  lemma {:induction false} TotalWeightSignal(terms: seq<(real, real)>)
    requires PositiveWeights(terms)
    ensures TotalWeight(terms) >= 0.0
    ensures TotalWeight(terms) > 0.0 <==> AnyPositive(terms)
  {
    if terms != [] {
      TotalWeightSignal(terms[1..]);
      if AnyPositive(terms[1..]) {
        var i :| 0 <= i < |terms[1..]| && terms[1..][i].0 > 0.0;
        assert terms[i + 1].0 > 0.0;
      }
      if AnyPositive(terms) && terms[0].0 <= 0.0 {
        var i :| 0 <= i < |terms| && terms[i].0 > 0.0;
        assert i > 0 && terms[1..][i - 1] == terms[i];
      }
    }
  }

  /** One more weighted term keeps the sum above `lo` times the total. */
  lemma StepAtLeast(lo: real, s: real, w: real, restTotal: real, restSum: real)
    requires lo <= s && w >= 0.0 && lo * restTotal <= restSum
    ensures lo * (w + restTotal) <= s * w + restSum
  {
    assert lo * (w + restTotal) == lo * w + lo * restTotal;
    assert lo * w <= s * w;
  }

  /** One more weighted term keeps the sum below `hi` times the total. */
  lemma StepAtMost(hi: real, s: real, w: real, restTotal: real, restSum: real)
    requires s <= hi && w >= 0.0 && restSum <= hi * restTotal
    ensures s * w + restSum <= hi * (w + restTotal)
  {
    assert hi * (w + restTotal) == hi * w + hi * restTotal;
    assert s * w <= hi * w;
  }

  /** With every positive score at least `lo`, the weighted sum is at least `lo` times the total weight. */
  lemma {:induction false} WeightedSumAtLeast(terms: seq<(real, real)>, lo: real)
    requires PositiveWeights(terms)
    requires PositiveScoresAtLeast(terms, lo)
    ensures lo * TotalWeight(terms) <= WeightedSum(terms)
  {
    if terms != [] {
      var rest := terms[1..];
      assert PositiveScoresAtLeast(rest, lo) by {
        forall i | 0 <= i < |rest| && rest[i].0 > 0.0 ensures lo <= rest[i].0 {
          assert rest[i] == terms[i + 1];
        }
      }
      WeightedSumAtLeast(rest, lo);
      if terms[0].0 > 0.0 {
        StepAtLeast(lo, terms[0].0, terms[0].1, TotalWeight(rest), WeightedSum(rest));
      }
    }
  }

  /** With every positive score at most `hi`, the weighted sum is at most `hi` times the total weight. */
  lemma {:induction false} WeightedSumAtMost(terms: seq<(real, real)>, hi: real)
    requires PositiveWeights(terms)
    requires PositiveScoresAtMost(terms, hi)
    ensures WeightedSum(terms) <= hi * TotalWeight(terms)
  {
    if terms != [] {
      var rest := terms[1..];
      assert PositiveScoresAtMost(rest, hi) by {
        forall i | 0 <= i < |rest| && rest[i].0 > 0.0 ensures rest[i].0 <= hi {
          assert rest[i] == terms[i + 1];
        }
      }
      WeightedSumAtMost(rest, hi);
      if terms[0].0 > 0.0 {
        StepAtMost(hi, terms[0].0, terms[0].1, TotalWeight(rest), WeightedSum(rest));
      }
    }
  }

  /** The six terms of `subindices`, each with a positive weight. */
  lemma CodeTerms(subindices: map<string, SubIndex>)
    ensures PositiveWeights(Terms(subindices, Weights))
    ensures AnyPositive(Terms(subindices, Weights)) <==> HasSignal(subindices)
  {
    var terms := Terms(subindices, Weights);
    if HasSignal(subindices) {
      var i :| 0 <= i < |Weights| && ScoreOf(subindices, Weights[i].0) > 0.0;
      assert terms[i].0 > 0.0;
    }
  }

  /** The re-normalised weighted mean of the positive scores, before rounding (0 without any). */
  function Mean(subindices: map<string, SubIndex>): real {
    var terms := Terms(subindices, Weights);
    var total := TotalWeight(terms);
    if total == 0.0 then 0.0 else WeightedSum(terms) / total
  }

  /**
   * `calculate_iai(subindices)`: never negative, always a whole number of
   * tenths, and exactly 0 when none of the six codes has a positive score.
   */
  function CalculateIai(subindices: map<string, SubIndex>): (iai: real)
    ensures iai >= 0.0
    ensures IsTenth(iai)
    ensures !HasSignal(subindices) ==> iai == 0.0
  {
    var terms := Terms(subindices, Weights);
    CodeTerms(subindices);
    TotalWeightSignal(terms);
    if TotalWeight(terms) == 0.0 then 0.0
    else
      MeanNonNegative(subindices);
      Round1NonNegative(Mean(subindices));
      Round1(Mean(subindices))
  }

  /** The unrounded index is never negative: only positive scores enter the mean. */
  lemma MeanNonNegative(subindices: map<string, SubIndex>)
    ensures Mean(subindices) >= 0.0
  {
    var terms := Terms(subindices, Weights);
    CodeTerms(subindices);
    TotalWeightSignal(terms);
    if TotalWeight(terms) > 0.0 {
      MeanAtLeast(terms, 0.0);
    }
  }

  /**
   * With a positive score somewhere, the unrounded index is a weighted mean of
   * the positive scores: it lies between the smallest and the largest of them,
   * and the rounded index between their roundings.
   */
  lemma IaiBetweenScores(subindices: map<string, SubIndex>, lo: real, hi: real)
    requires HasSignal(subindices)
    requires forall i :: 0 <= i < |Weights| && ScoreOf(subindices, Weights[i].0) > 0.0 ==>
      lo <= ScoreOf(subindices, Weights[i].0) <= hi
    ensures lo <= Mean(subindices) <= hi
    ensures Round1(lo) <= CalculateIai(subindices) <= Round1(hi)
  {
    var terms := Terms(subindices, Weights);
    CodeTerms(subindices);
    assert PositiveScoresAtLeast(terms, lo) && PositiveScoresAtMost(terms, hi);
    TotalWeightSignal(terms);
    MeanAtLeast(terms, lo);
    MeanAtMost(terms, hi);
    Round1Monotone(lo, Mean(subindices));
    Round1Monotone(Mean(subindices), hi);
  }

  /** A weighted mean is at least any lower bound on the values it averages. */
  lemma MeanAtLeast(terms: seq<(real, real)>, lo: real)
    requires PositiveWeights(terms) && TotalWeight(terms) > 0.0
    requires PositiveScoresAtLeast(terms, lo)
    ensures lo <= WeightedSum(terms) / TotalWeight(terms)
  {
    WeightedSumAtLeast(terms, lo);
    var sum, total := WeightedSum(terms), TotalWeight(terms);
    assert lo * total <= sum;
    DivideAtLeast(sum, total, lo);
  }

  /** A weighted mean is at most any upper bound on the values it averages. */
  lemma MeanAtMost(terms: seq<(real, real)>, hi: real)
    requires PositiveWeights(terms) && TotalWeight(terms) > 0.0
    requires PositiveScoresAtMost(terms, hi)
    ensures WeightedSum(terms) / TotalWeight(terms) <= hi
  {
    WeightedSumAtMost(terms, hi);
    var sum, total := WeightedSum(terms), TotalWeight(terms);
    assert sum <= hi * total;
    DivideAtMost(sum, total, hi);
  }

  lemma DivideAtLeast(sum: real, total: real, lo: real)
    requires total > 0.0 && lo * total <= sum
    ensures lo <= sum / total
  {
  }

  lemma DivideAtMost(sum: real, total: real, hi: real)
    requires total > 0.0 && sum <= hi * total
    ensures sum / total <= hi
  {
  }

  /** When all six codes score the same positive `s`, the index is `s` rounded. */
  lemma IaiOfUniformScores(subindices: map<string, SubIndex>, s: real)
    requires s > 0.0
    requires forall i :: 0 <= i < |Weights| ==> ScoreOf(subindices, Weights[i].0) == s
    ensures CalculateIai(subindices) == Round1(s)
  {
    assert ScoreOf(subindices, Weights[0].0) > 0.0;
    IaiBetweenScores(subindices, s, s);
  }

  /** With every score at most 10 (the nominal scale), so is the index. */
  lemma IaiOnNominalScale(subindices: map<string, SubIndex>)
    requires forall i :: 0 <= i < |Weights| ==> ScoreOf(subindices, Weights[i].0) <= 10.0
    ensures 0.0 <= CalculateIai(subindices) <= 10.0
  {
    if HasSignal(subindices) {
      IaiBetweenScores(subindices, 0.0, 10.0);
      Round1OfTenth(10.0);
    }
  }

  /** The index depends on nothing but the scores read for the six codes. */
  lemma IaiDependsOnlyOnCodeScores(a: map<string, SubIndex>, b: map<string, SubIndex>)
    requires forall i :: 0 <= i < |Weights| ==> ScoreOf(a, Weights[i].0) == ScoreOf(b, Weights[i].0)
    ensures CalculateIai(a) == CalculateIai(b)
  {
    assert Terms(a, Weights) == Terms(b, Weights);
  }

  /** A block under a key outside the six codes changes nothing. */
  lemma IaiIgnoresOtherKeys(subindices: map<string, SubIndex>, key: string, block: SubIndex)
    requires !IsCode(key)
    ensures CalculateIai(subindices[key := block]) == CalculateIai(subindices)
  {
    IaiDependsOnlyOnCodeScores(subindices[key := block], subindices);
  }

  /**
   * A code whose score is not a number, or not positive, weighs exactly as
   * much as a code that is missing: nothing in the sum, nothing in the total.
   */
  lemma IaiDropsSilentCode(subindices: map<string, SubIndex>, code: string, block: SubIndex)
    requires ToFloat(block.score).None? || ToFloat(block.score).value <= 0.0
    ensures CalculateIai(subindices[code := block]) == CalculateIai(subindices - {code})
  {
    var a := subindices[code := block];
    var b := subindices - {code};
    var ta := Terms(a, Weights);
    var tb := Terms(b, Weights);
    DropSilentTerms(ta, tb);
  }

  /** Terms that differ only in non-positive scores have the same sum and total. */
  lemma {:induction false} DropSilentTerms(ta: seq<(real, real)>, tb: seq<(real, real)>)
    requires |ta| == |tb|
    requires forall i :: 0 <= i < |ta| ==> ta[i].1 == tb[i].1
    requires forall i :: 0 <= i < |ta| ==> ta[i].0 == tb[i].0 || (ta[i].0 <= 0.0 && tb[i].0 <= 0.0)
    ensures WeightedSum(ta) == WeightedSum(tb) && TotalWeight(ta) == TotalWeight(tb)
  {
    if ta != [] {
      DropSilentTerms(ta[1..], tb[1..]);
    }
  }

  /** The worked example: FSI 8, MPI 0, PTI 6 give 3.6 / 0.5 = 7.2. */
  lemma IaiWorkedExample()
    ensures CalculateIai(map["FSI" := SubIndex(Number(8.0), []), "MPI" := SubIndex(Number(0.0), []),
                             "PTI" := SubIndex(Number(6.0), [])]) == 7.2
  {
    var m := map["FSI" := SubIndex(Number(8.0), []), "MPI" := SubIndex(Number(0.0), []),
                 "PTI" := SubIndex(Number(6.0), [])];
    var terms := Terms(m, Weights);
    assert terms == [(8.0, 0.30), (0.0, 0.25), (6.0, 0.20), (0.0, 0.15), (0.0, 0.10), (0.0, 0.05)];
    assert TotalWeight(terms[3..]) == 0.0 && WeightedSum(terms[3..]) == 0.0 by {
      assert TotalWeight(terms[5..]) == 0.0 && WeightedSum(terms[5..]) == 0.0;
      assert TotalWeight(terms[4..]) == 0.0 && WeightedSum(terms[4..]) == 0.0;
    }
    assert TotalWeight(terms[2..]) == 0.2 && WeightedSum(terms[2..]) == 1.2;
    assert TotalWeight(terms[1..]) == 0.2 && WeightedSum(terms[1..]) == 1.2;
    assert TotalWeight(terms) == 0.5 && WeightedSum(terms) == 3.6;
    assert Mean(m) == 7.2;
    assert (7.2 * 10.0 + 0.5).Floor == 72;
  }

  /** Scores are not clamped: a lone FSI score of 15 gives an index of 15, off the 0-10 scale. */
  lemma IaiOffNominalScale()
    ensures CalculateIai(map["FSI" := SubIndex(Number(15.0), [])]) == 15.0
  {
    var m := map["FSI" := SubIndex(Number(15.0), [])];
    assert ScoreOf(m, Weights[0].0) == 15.0;
    forall i | 0 < i < |Weights|
      ensures ScoreOf(m, Weights[i].0) == 0.0
    {
      assert Weights[i].0 != "FSI";
    }
    IaiBetweenScores(m, 15.0, 15.0);
    Round1OfTenth(15.0);
  }
}
