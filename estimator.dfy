/** The duration heuristic `estimate_duration` (md2mp3.py:90-140): reading
    time from the stripped character count and a per-language speed, scaled
    by the rate, plus pauses for punctuation that the rate does not scale.
    Floating-point arithmetic is modelled by exact reals. */
module Estimator {
  import opened Text

  /** Characters per second for the listed languages; 4.0 for any other. */
  function BaseSpeed(language: string): (speed: real)
    ensures speed == 2.8 || speed == 4.0 || speed == 4.5 || speed == 5.0
    ensures language == "en" <==> speed == 2.8
    ensures language == "zh-CN" || language == "zh-TW" <==> speed == 4.5
    ensures language == "ja" <==> speed == 5.0
  {
    if language == "zh-CN" || language == "zh-TW" then 4.5
    else if language == "en" then 2.8
    else if language == "ja" then 5.0
    else if language == "ko" then 4.0
    else 4.0
  }

  /** `text.count(c)` for a single character `c`. */
  function Count(text: string, c: char): (n: nat)
    ensures n <= |text|
  {
    if text == [] then 0
    else (if text[0] == c then 1 else 0) + Count(text[1..], c)
  }

  /** `text.count(c)` is the number of times `c` occurs in the text. */
  lemma {:induction false} CountIsMultiplicity(text: string, c: char)
    ensures Count(text, c) == multiset(text)[c]
  {
    if text != [] {
      CountIsMultiplicity(text[1..], c);
      assert text == [text[0]] + text[1..];
    }
  }

  /** The pause `estimate_duration` charges for one occurrence of `c`: full-stop
      marks and the line break 0.5 s, full-width soft separators 0.3 s, ASCII
      full stops 0.4 s, ASCII soft separators 0.2 s, nothing otherwise. */
  function PauseWeight(c: char): (w: real)
    ensures 0.0 <= w <= 0.5
  {
    if c == '。' || c == '！' || c == '？' || c == '\n' then 0.5
    else if c == '，' || c == '；' || c == '：' then 0.3
    else if c == '.' || c == '!' || c == '?' then 0.4
    else if c == ',' || c == ';' then 0.2
    else 0.0
  }

  /** `text.count(c) * w`: the pause charged for every occurrence of `c`. */
  function Charge(text: string, c: char, w: real): real {
    Count(text, c) as real * w
  }

  /** The pause term as `estimate_duration` computes it: twelve counts, each times
      its weight. */
  function PauseTime(text: string): real {
    Charge(text, '。', 0.5) + Charge(text, '！', 0.5) + Charge(text, '？', 0.5)
    + Charge(text, '，', 0.3) + Charge(text, '；', 0.3) + Charge(text, '：', 0.3)
    + Charge(text, '.', 0.4) + Charge(text, '!', 0.4) + Charge(text, '?', 0.4)
    + Charge(text, ',', 0.2) + Charge(text, ';', 0.2) + Charge(text, '\n', 0.5)
  }

  /** Independent reference for the pause term: each character's weight,
      summed along the text. */
  function PauseOf(text: string): (p: real)
    ensures p >= 0.0
    ensures p <= 0.5 * |text| as real
  {
    if text == [] then 0.0 else PauseWeight(text[0]) + PauseOf(text[1..])
  }

  /** The reading term at rate 1: stripped length over the language speed. */
  function ReadingTime(text: string, language: string): (t: real)
    ensures t >= 0.0
    ensures t == 0.0 <==> AllSpace(text)
  {
    StripEmptyIff(text);
    |Strip(text)| as real / BaseSpeed(language)
  }

  /** `estimate_duration(text, language, rate)`. Blank text costs nothing and
      is answered before any division; otherwise the reading term is
      divided by `rate` and the pause term is added unscaled. */
  function EstimateDuration(text: string, language: string, rate: real): (d: real)
    requires rate != 0.0 || AllSpace(text)
    ensures AllSpace(text) ==> d == 0.0
    ensures rate > 0.0 ==> d >= 0.0
    ensures rate > 0.0 && !AllSpace(text) ==> d > 0.0
  {
    StripEmptyIff(text);
    PauseTimeIsPerCharacter(text);
    if |Strip(text)| == 0 then 0.0
    else
      var reading := ReadingTime(text, language);
      DivideSign(reading, rate);
      reading / rate + PauseTime(text)
  }

  // ---------------------------------------------------------------------
  // Lemmas

  /** The twelve-count formula charges each character its own weight. */
  lemma {:induction false} PauseTimeIsPerCharacter(text: string)
    ensures PauseTime(text) == PauseOf(text)
  {
    if text != [] {
      PauseTimeIsPerCharacter(text[1..]);
      PauseTimeStep(text);
    }
  }

  lemma PauseTimeStep(text: string)
    requires text != []
    ensures PauseTime(text) == PauseWeight(text[0]) + PauseTime(text[1..])
  {
    var c := text[0];
    ChargeStep(text, '。', 0.5);
    ChargeStep(text, '！', 0.5);
    ChargeStep(text, '？', 0.5);
    ChargeStep(text, '，', 0.3);
    ChargeStep(text, '；', 0.3);
    ChargeStep(text, '：', 0.3);
    ChargeStep(text, '.', 0.4);
    ChargeStep(text, '!', 0.4);
    ChargeStep(text, '?', 0.4);
    ChargeStep(text, ',', 0.2);
    ChargeStep(text, ';', 0.2);
    ChargeStep(text, '\n', 0.5);
    WeightAsCharges(c);
  }

  lemma ChargeStep(text: string, c: char, w: real)
    requires text != []
    ensures Charge(text, c, w) == (if text[0] == c then w else 0.0) + Charge(text[1..], c, w)
  {
  }

  /** One character's weight, written as the twelve charges it can incur. */
  lemma WeightAsCharges(c: char)
    ensures PauseWeight(c)
            == (if c == '。' then 0.5 else 0.0) + (if c == '！' then 0.5 else 0.0)
               + (if c == '？' then 0.5 else 0.0) + (if c == '，' then 0.3 else 0.0)
               + (if c == '；' then 0.3 else 0.0) + (if c == '：' then 0.3 else 0.0)
               + (if c == '.' then 0.4 else 0.0) + (if c == '!' then 0.4 else 0.0)
               + (if c == '?' then 0.4 else 0.0) + (if c == ',' then 0.2 else 0.0)
               + (if c == ';' then 0.2 else 0.0) + (if c == '\n' then 0.5 else 0.0)
  {
  }

  /** A higher rate never lengthens the estimate. */
  lemma EstimateNonIncreasingInRate(text: string, language: string, r1: real, r2: real)
    requires 0.0 < r1 <= r2
    ensures EstimateDuration(text, language, r2) <= EstimateDuration(text, language, r1)
  {
    if !AllSpace(text) {
      DivideByLarger(ReadingTime(text, language), r1, r2);
    }
  }

  lemma DivideSign(x: real, r: real)
    requires r != 0.0
    ensures x >= 0.0 && r > 0.0 ==> x / r >= 0.0
    ensures x > 0.0 && r > 0.0 ==> x / r > 0.0
  {
    if r > 0.0 {
      assert x / r * r == x;
    }
  }

  lemma DivideByLarger(x: real, r1: real, r2: real)
    requires x >= 0.0 && 0.0 < r1 <= r2
    ensures x / r2 <= x / r1
  {
    assert x / r2 * r2 == x == x / r1 * r1;
    assert x / r2 * r1 <= x / r2 * r2;
  }

  /** The rate scales the reading term only: once the pauses are taken
      away, the estimate at `rate` is the reading time over `rate`, and the
      estimate at rate 1 is the reading time itself. */
  lemma RateScalesReadingOnly(text: string, language: string, rate: real)
    requires rate != 0.0 && !AllSpace(text)
    ensures EstimateDuration(text, language, rate) - PauseOf(text)
            == ReadingTime(text, language) / rate
    ensures EstimateDuration(text, language, 1.0) - PauseOf(text)
            == ReadingTime(text, language)
  {
    var reading := ReadingTime(text, language);
    StripEmptyIff(text);
    PauseTimeIsPerCharacter(text);
    assert EstimateDuration(text, language, rate) == reading / rate + PauseOf(text);
    assert EstimateDuration(text, language, 1.0) == reading / 1.0 + PauseOf(text);
    assert reading / 1.0 == reading;
  }

  /** The estimate is at most the whole text read at the language speed,
      plus the longest pause for every character. */
  lemma EstimateUpperBound(text: string, language: string, rate: real)
    requires rate > 0.0
    ensures EstimateDuration(text, language, rate)
            <= |text| as real / BaseSpeed(language) / rate + 0.5 * |text| as real
  {
    if !AllSpace(text) {
      var speed := BaseSpeed(language);
      PauseTimeIsPerCharacter(text);
      DivideMonotone(|Strip(text)| as real, |text| as real, speed);
      DivideMonotone(|Strip(text)| as real / speed, |text| as real / speed, rate);
    }
  }

  lemma DivideMonotone(x: real, y: real, r: real)
    requires x <= y && r > 0.0
    ensures x / r <= y / r
  {
    assert x / r * r == x && y / r * r == y;
  }

  /** Two sentences of Chinese at normal speed take more than 0 and less
      than 10 seconds. */
  lemma ChineseExample(text: string)
    requires text == "你好。今天天气不错！"
    ensures 0.0 < EstimateDuration(text, "zh-CN", 1.0) < 10.0
  {
    assert |text| == 10 && !IsSpace(text[0]);
    EstimateUpperBound(text, "zh-CN", 1.0);
  }
}
