/** LRC caption text (md2mp3.py:143-195): a `[mm:ss.xx]` tag in front of each
    sentence, lines joined with line breaks. The estimated builder times
    each sentence with the duration heuristic; the measured builder pairs
    sentences with timestamps supplied from outside. */
module Lrc {
  import opened Wrappers
  import opened Text
  import opened Segmenter
  import opened Estimator
  import opened Timeline

  // ---------------------------------------------------------------------
  // Decimal digits

  predicate IsDigits(s: string) {
    forall i :: 0 <= i < |s| ==> '0' <= s[i] <= '9'
  }

  function DigitChar(d: nat): (c: char)
    requires d < 10
    ensures '0' <= c <= '9' && c as int - '0' as int == d
  {
    ('0' as int + d) as char
  }

  /** `str(n)` for a natural number: its decimal digits, no leading zero. */
  function Digits(n: nat): (s: string)
    ensures |s| >= 1 && IsDigits(s)
    ensures n < 10 <==> |s| == 1
    ensures n < 100 ==> |s| <= 2
  {
    if n < 10 then [DigitChar(n)] else Digits(n / 10) + [DigitChar(n % 10)]
  }

  /** The number a string of decimal digits denotes. */
  function Value(s: string): nat
    requires IsDigits(s)
  {
    if s == [] then 0
    else Value(s[..|s| - 1]) * 10 + (s[|s| - 1] as int - '0' as int)
  }

  /** `format(n, '02d')` for a natural number: at least two digits. */
  function Pad2(s: string): (r: string)
    ensures |r| == if |s| >= 2 then |s| else 2
    decreases 2 - |s|
  {
    if |s| >= 2 then s else Pad2("0" + s)
  }

  // ---------------------------------------------------------------------
  // The time tag

  /** `int(t // 60)`: whole minutes, rounded toward minus infinity. */
  function Minutes(t: real): int {
    (t / 60.0).Floor
  }

  /** `t % 60` with Python's sign rule: what is left of `t` after the whole
      minutes, never negative. */
  function Seconds(t: real): (s: real)
    ensures 0.0 <= s < 60.0
    ensures Minutes(t) as real * 60.0 + s == t
  {
    t - Minutes(t) as real * 60.0
  }

  /** The nearest whole number to `x`, ties to the even one, as Python's
      fixed-point formatting rounds. */
  function RoundHalfEven(x: real): (n: int)
    ensures x - 0.5 <= n as real <= x + 0.5
  {
    var f := x.Floor;
    var frac := x - f as real;
    if frac < 0.5 then f
    else if frac > 0.5 then f + 1
    else if f % 2 == 0 then f
    else f + 1
  }

  /** The seconds in hundredths, as the two-decimal format rounds them. */
  function Hundredths(s: real): (h: nat)
    requires 0.0 <= s < 60.0
    ensures h <= 6000
  {
    RoundHalfEven(s * 100.0)
  }

  /** `format(m, '02d')`: a minus sign in front of negative minutes, two
      digits at least otherwise. */
  function MinuteField(m: int): string {
    if m < 0 then "-" + Digits(-m) else Pad2(Digits(m))
  }

  /** `format(s, '05.2f')` for `0 <= s < 60`: two digits, a point, two
      decimals. Rounding can carry a value just under 60 up to `60.00`. */
  function SecondField(s: real): string
    requires 0.0 <= s < 60.0
  {
    var h := Hundredths(s);
    Pad2(Digits(h / 100)) + "." + Pad2(Digits(h % 100))
  }

  /** `[mm:ss.xx]` for a time in seconds. */
  function TimeTag(t: real): string {
    "[" + MinuteField(Minutes(t)) + ":" + SecondField(Seconds(t)) + "]"
  }

  /** Reads a tag back: the minutes between the bracket and the colon, then
      two digits of seconds, a point and two decimals. */
  function ReadTag(tag: string): Option<real> {
    var n := |tag|;
    if n < 8 || tag[0] != '[' || tag[n - 7] != ':' || tag[n - 4] != '.' || tag[n - 1] != ']' then None
    else ReadFields(tag[1..n - 7], tag[n - 6..n - 4], tag[n - 3..n - 1])
  }

  /** The time written by minute, second and hundredth digit fields. */
  function ReadFields(mm: string, ss: string, cc: string): Option<real> {
    if IsDigits(mm) && IsDigits(ss) && IsDigits(cc) then
      Some(Value(mm) as real * 60.0 + Value(ss) as real + Value(cc) as real / 100.0)
    else None
  }

  // ---------------------------------------------------------------------
  // Lemmas about the tag

  lemma {:induction false} DigitsValue(n: nat)
    ensures Value(Digits(n)) == n
  {
    if n >= 10 {
      DigitsValue(n / 10);
      var s := Digits(n);
      assert s[..|s| - 1] == Digits(n / 10);
    }
  }

  lemma {:induction false} LeadingZeroValue(s: string)
    requires IsDigits(s)
    ensures IsDigits("0" + s) && Value("0" + s) == Value(s)
    decreases |s|
  {
    if s != [] {
      var z := "0" + s;
      assert z[..|z| - 1] == "0" + s[..|s| - 1];
      LeadingZeroValue(s[..|s| - 1]);
    }
  }

  lemma {:induction false} Pad2Value(s: string)
    requires IsDigits(s)
    ensures IsDigits(Pad2(s)) && Value(Pad2(s)) == Value(s)
    decreases 2 - |s|
  {
    if |s| < 2 {
      LeadingZeroValue(s);
      Pad2Value("0" + s);
    }
  }

  /** Where the fields of a tag sit. */
  lemma TagLayout(a: string, b: string, c: string)
    requires |b| == 2 && |c| == 2
    ensures var tag := "[" + a + ":" + b + "." + c + "]";
            var n := |tag|;
            n == |a| + 8 && tag[0] == '[' && tag[n - 7] == ':' && tag[n - 4] == '.'
            && tag[n - 1] == ']' && tag[1..n - 7] == a && tag[n - 6..n - 4] == b
            && tag[n - 3..n - 1] == c
  {
  }

  /** Reading back a tag assembled from digit fields. */
  lemma ReadAssembledTag(a: string, b: string, c: string)
    requires |b| == 2 && |c| == 2 && IsDigits(a) && IsDigits(b) && IsDigits(c)
    ensures ReadTag("[" + a + ":" + b + "." + c + "]")
            == Some(Value(a) as real * 60.0 + Value(b) as real + Value(c) as real / 100.0)
  {
    var tag := "[" + a + ":" + b + "." + c + "]";
    TagLayout(a, b, c);
    assert ReadTag(tag) == ReadFields(a, b, c);
    ReadDigitFields(a, b, c);
  }

  lemma ReadDigitFields(a: string, b: string, c: string)
    requires IsDigits(a) && IsDigits(b) && IsDigits(c)
    ensures ReadFields(a, b, c)
            == Some(Value(a) as real * 60.0 + Value(b) as real + Value(c) as real / 100.0)
  {
  }

  lemma SplitHundredths(h: nat)
    ensures (h / 100) as real + (h % 100) as real / 100.0 == h as real / 100.0
  {
    assert h == (h / 100) * 100 + h % 100;
  }

  /** Reading a tag back gives the time it was made from, to within half a
      hundredth of a second. */
  lemma TimeTagReadsBack(t: real)
    requires t >= 0.0
    ensures ReadTag(TimeTag(t)).Some?
    ensures t - 0.005 <= ReadTag(TimeTag(t)).value <= t + 0.005
  {
    var m := Minutes(t);
    var s := Seconds(t);
    var h := Hundredths(s);
    var a, b, c := Pad2(Digits(m)), Pad2(Digits(h / 100)), Pad2(Digits(h % 100));
    assert TimeTag(t) == "[" + a + ":" + b + "." + c + "]" by {
      assert MinuteField(m) == a;
      assert SecondField(s) == b + "." + c;
      AppendAssoc("[" + a + ":", b + ".", c);
    }
    DigitsValue(m);
    DigitsValue(h / 100);
    DigitsValue(h % 100);
    Pad2Value(Digits(m));
    Pad2Value(Digits(h / 100));
    Pad2Value(Digits(h % 100));
    ReadAssembledTag(a, b, c);
    SplitHundredths(h);
    assert s * 100.0 - 0.5 <= h as real <= s * 100.0 + 0.5;
  }

  /** The carry the format does not propagate: a time just under two
      minutes is written with 60 in the seconds field. */
  lemma SecondsFieldCanReadSixty(t: real)
    requires t == 119.996
    ensures TimeTag(t) == "[01:60.00]"
  {
    assert Minutes(t) == 1;
    assert Seconds(t) == 59.996;
    assert Hundredths(59.996) == 6000;
    assert Digits(60) == "60" by {
      assert Digits(6) == "6";
    }
    assert Digits(0) == "0";
    assert Digits(1) == "1";
  }

  lemma NoLineBreakInDigits(s: string)
    requires IsDigits(s)
    ensures '\n' !in s
  {
    forall i | 0 <= i < |s| ensures s[i] != '\n' {
      assert '0' <= s[i] <= '9';
    }
  }

  /** A time tag never holds a line break. */
  lemma TimeTagHasNoLineBreak(t: real)
    ensures '\n' !in TimeTag(t)
  {
    var m := Minutes(t);
    var h := Hundredths(Seconds(t));
    if m < 0 {
      NoLineBreakInDigits(Digits(-m));
    } else {
      Pad2Value(Digits(m));
      NoLineBreakInDigits(Pad2(Digits(m)));
    }
    assert '\n' !in MinuteField(m);
    Pad2Value(Digits(h / 100));
    NoLineBreakInDigits(Pad2(Digits(h / 100)));
    Pad2Value(Digits(h % 100));
    NoLineBreakInDigits(Pad2(Digits(h % 100)));
    assert '\n' !in SecondField(Seconds(t));
  }

  // ---------------------------------------------------------------------
  // Caption tracks

  /** One caption: when it is shown and what it says. */
  datatype Caption = Caption(time: real, text: string)

  /** `f"{time_tag}{sentence}"` */
  function Line(c: Caption): string {
    TimeTag(c.time) + c.text
  }

  function Lines(track: seq<Caption>): (lines: seq<string>)
    ensures |lines| == |track|
  {
    seq(|track|, i requires 0 <= i < |track| => Line(track[i]))
  }

  /** `'\n'.join(lrc_lines)`: the caption file's text. */
  function Render(track: seq<Caption>): string {
    Join(Lines(track), "\n")
  }

  /** Sentence `i` shown at time `i`, for as many as both lists cover; the
      sentences beyond the last time are dropped. */
  function Captions(sentences: seq<string>, times: seq<real>): (track: seq<Caption>)
    ensures |track| == if |sentences| <= |times| then |sentences| else |times|
    ensures forall i :: 0 <= i < |track| ==> track[i] == Caption(times[i], sentences[i])
  {
    if sentences == [] || times == [] then []
    else [Caption(times[0], sentences[0])] + Captions(sentences[1..], times[1..])
  }

  /** The estimated duration of every sentence. */
  function Durations(sentences: seq<string>, language: string, rate: real): (ds: seq<real>)
    requires rate != 0.0 || sentences == []
    ensures |ds| == |sentences|
  {
    seq(|sentences|, i requires 0 <= i < |sentences| => EstimateDuration(sentences[i], language, rate))
  }

  /** The track the estimated builder produces: every sentence starts when
      the estimates of the ones before it have run out. */
  function EstimatedTrack(sentences: seq<string>, language: string, rate: real): seq<Caption>
    requires rate != 0.0 || sentences == []
  {
    Captions(sentences, Starts(Durations(sentences, language, rate)))
  }

  lemma LinesSnoc(track: seq<Caption>, i: nat)
    requires i < |track|
    ensures Lines(track)[..i + 1] == Lines(track)[..i] + [Line(track[i])]
  {
  }

  /** Caption `i` of the estimated track: sentence `i`, shown once the
      estimates of sentences `0 .. i-1` have run out. */
  lemma EstimatedCaption(sentences: seq<string>, language: string, rate: real, i: nat)
    requires rate != 0.0 || sentences == []
    requires i < |sentences|
    ensures |EstimatedTrack(sentences, language, rate)| == |sentences|
    ensures EstimatedTrack(sentences, language, rate)[i]
            == Caption(Sum(Durations(sentences, language, rate)[..i]), sentences[i])
  {
  }

  // ---------------------------------------------------------------------
  // The two builders

  /** `generate_lrc(text, language, rate)`: a running clock, advanced by
      each sentence's estimate after its line is written. */
  method GenerateLrc(text: string, language: string, rate: real) returns (lrc: string)
    requires rate != 0.0 || SplitIntoSentences(text) == []
    ensures lrc == Render(EstimatedTrack(SplitIntoSentences(text), language, rate))
  {
    var sentences := SplitIntoSentences(text);
    var lines := EstimatedLineList(sentences, language, rate);
    lrc := Join(lines, "\n");
  }

  /** The loop of `generate_lrc`: each sentence's line is tagged with the
      running clock, which then moves on by the sentence's estimate. */
  method EstimatedLineList(sentences: seq<string>, language: string, rate: real) returns (lines: seq<string>)
    requires rate != 0.0 || sentences == []
    ensures lines == Lines(EstimatedTrack(sentences, language, rate))
  {
    ghost var durations := Durations(sentences, language, rate);
    ghost var captionLines := Lines(EstimatedTrack(sentences, language, rate));
    EstimatedLines(sentences, language, rate, durations, captionLines);
    lines := [];
    var currentTime := 0.0;
    var i := 0;
    while i < |sentences|
      invariant 0 <= i <= |sentences|
      invariant currentTime == Sum(durations[..i])
      invariant lines == captionLines[..i]
    {
      var sentence := sentences[i];
      EstimatedStep(sentences, language, rate, durations, captionLines, i);
      lines := lines + [TimeTag(currentTime) + sentence];
      var duration := EstimateDuration(sentence, language, rate);
      currentTime := currentTime + duration;
      i := i + 1;
    }
  }

  /** One turn of the loop of `generate_lrc`: the line written for sentence
      `i` is its caption, and the clock moves on by its estimate. */
  lemma EstimatedStep(sentences: seq<string>, language: string, rate: real,
                      durations: seq<real>, captionLines: seq<string>, i: nat)
    requires rate != 0.0 || sentences == []
    requires durations == Durations(sentences, language, rate)
    requires captionLines == Lines(EstimatedTrack(sentences, language, rate))
    requires i < |sentences|
    ensures Sum(durations[..i + 1]) == Sum(durations[..i]) + EstimateDuration(sentences[i], language, rate)
    ensures captionLines[..i + 1] == captionLines[..i] + [TimeTag(Sum(durations[..i])) + sentences[i]]
  {
    var track := EstimatedTrack(sentences, language, rate);
    EstimatedCaption(sentences, language, rate, i);
    LinesSnoc(track, i);
    SumStep(durations, i);
  }

  /** The loop of `generate_lrc` ends with every caption line written. */
  lemma EstimatedLines(sentences: seq<string>, language: string, rate: real,
                       durations: seq<real>, captionLines: seq<string>)
    requires rate != 0.0 || sentences == []
    requires durations == Durations(sentences, language, rate)
    requires captionLines == Lines(EstimatedTrack(sentences, language, rate))
    ensures captionLines[..|sentences|] == captionLines
    ensures Join(captionLines, "\n") == Render(EstimatedTrack(sentences, language, rate))
  {
    if sentences != [] {
      EstimatedCaption(sentences, language, rate, 0);
    }
  }

  /** `generate_lrc_accurate(sentences, timestamps)` */
  method GenerateLrcAccurate(sentences: seq<string>, timestamps: seq<real>) returns (lrc: string)
    ensures lrc == Render(Captions(sentences, timestamps))
  {
    ghost var track := Captions(sentences, timestamps);
    var lines: seq<string> := [];
    var i := 0;
    while i < |sentences|
      invariant 0 <= i <= |sentences|
      invariant i <= |timestamps| ==> lines == Lines(track)[..i]
      invariant i > |timestamps| ==> lines == Lines(track)
    {
      if i < |timestamps| {
        var time := timestamps[i];
        LinesSnoc(track, i);
        lines := lines + [TimeTag(time) + sentences[i]];
      }
      i := i + 1;
    }
    assert lines == Lines(track);
    lrc := Join(lines, "\n");
  }

  // ---------------------------------------------------------------------
  // Lemmas about the tracks and the file text

  /** The estimated track holds every sentence once, in order; the first
      starts at zero and each later one starts when the estimate of the one
      before it has run out. */
  lemma EstimatedTrackTiming(sentences: seq<string>, language: string, rate: real)
    requires rate != 0.0 || sentences == []
    ensures |EstimatedTrack(sentences, language, rate)| == |sentences|
    ensures forall i :: 0 <= i < |sentences| ==>
              EstimatedTrack(sentences, language, rate)[i].text == sentences[i]
    ensures sentences != [] ==> EstimatedTrack(sentences, language, rate)[0].time == 0.0
    ensures forall i :: 0 <= i < |sentences| - 1 ==>
              EstimatedTrack(sentences, language, rate)[i + 1].time
              == EstimatedTrack(sentences, language, rate)[i].time
                 + EstimateDuration(sentences[i], language, rate)
  {
    var track := EstimatedTrack(sentences, language, rate);
    var durations := Durations(sentences, language, rate);
    if sentences != [] {
      EstimatedCaption(sentences, language, rate, 0);
      assert durations[..0] == [];
    }
    forall i | 0 <= i < |sentences|
      ensures track[i].text == sentences[i]
    {
      EstimatedCaption(sentences, language, rate, i);
    }
    forall i | 0 <= i < |sentences| - 1
      ensures track[i + 1].time == track[i].time + EstimateDuration(sentences[i], language, rate)
    {
      EstimatedCaption(sentences, language, rate, i);
      EstimatedCaption(sentences, language, rate, i + 1);
      SumStep(durations, i);
    }
  }

  /** At a positive rate, captions of sentences that are not blank appear
      one strictly after another. */
  lemma {:induction false} EstimatedTimesIncrease(sentences: seq<string>, language: string, rate: real, i: nat, j: nat)
    requires rate > 0.0
    requires forall k :: 0 <= k < |sentences| ==> !AllSpace(sentences[k])
    requires i < j < |sentences|
    ensures EstimatedTrack(sentences, language, rate)[i].time
            < EstimatedTrack(sentences, language, rate)[j].time
    decreases j - i
  {
    var durations := Durations(sentences, language, rate);
    EstimatedCaption(sentences, language, rate, j - 1);
    EstimatedCaption(sentences, language, rate, j);
    SumStep(durations, j - 1);
    assert durations[j - 1] > 0.0;
    if i < j - 1 {
      EstimatedTimesIncrease(sentences, language, rate, i, j - 1);
    }
  }

  /** Every sentence the splitter yields gets a positive estimate, so at a
      positive rate the captions `generate_lrc` writes for a text appear one
      strictly after another. */
  lemma SplitTextTimesIncrease(text: string, language: string, rate: real, i: nat, j: nat)
    requires rate > 0.0
    requires i < j < |SplitIntoSentences(text)|
    ensures EstimatedTrack(SplitIntoSentences(text), language, rate)[i].time
            < EstimatedTrack(SplitIntoSentences(text), language, rate)[j].time
  {
    var sentences := SplitIntoSentences(text);
    SentencesAreStripped(text);
    forall k | 0 <= k < |sentences| ensures !AllSpace(sentences[k]) {
      StripEmptyIff(sentences[k]);
    }
    EstimatedTimesIncrease(sentences, language, rate, i, j);
  }

  /** The file is empty exactly when there is no caption; otherwise it opens
      with the first tag's bracket. */
  lemma RenderEmptyIff(track: seq<Caption>)
    ensures Render(track) == [] <==> track == []
    ensures track != [] ==> Render(track)[0] == '['
  {
    if track != [] {
      var lines := Lines(track);
      forall k | 0 <= k < |lines| ensures lines[k] != [] && lines[k][0] == '[' {
        assert lines[k] == TimeTag(track[k].time) + track[k].text;
      }
      JoinEnds(lines, "\n");
    }
  }

  /** When no caption text holds a line break, cutting the file at its line
      breaks gives back exactly one tagged line per caption, in order. */
  lemma RenderSplitsBack(track: seq<Caption>)
    requires track != []
    requires forall k :: 0 <= k < |track| ==> '\n' !in track[k].text
    ensures SplitLines(Render(track)) == Lines(track)
  {
    var lines := Lines(track);
    forall k | 0 <= k < |lines| ensures '\n' !in lines[k] {
      TimeTagHasNoLineBreak(track[k].time);
      assert lines[k] == TimeTag(track[k].time) + track[k].text;
    }
    SplitJoinedLines(lines);
  }
  /** A caption whose text holds a line break spreads over several lines of
      the file: cutting the file at its line breaks gives more lines than
      there are captions, so some line carries no time tag. */
  lemma LineBreakAddsLine(track: seq<Caption>, k: nat)
    requires k < |track| && '\n' in track[k].text
    ensures |SplitLines(Render(track))| > |track|
  {
    var lines := Lines(track);
    assert lines[k] == TimeTag(track[k].time) + track[k].text;
    assert multiset(lines[k]) == multiset(TimeTag(track[k].time)) + multiset(track[k].text);
    assert multiset(track[k].text)['\n'] >= 1;
    JoinBreaks(lines, k);
    SplitLinesCount(Render(track));
  }

  /** The segmenter can yield such a sentence, so the estimated caption file
      of `"a.\n.b"` has more lines than captions. */
  lemma EstimatedFileCanBreakFormat(t: string, s1: string, s2: string, language: string, rate: real)
    requires t == "a.\n.b" && s1 == "a.\n." && s2 == "b"
    requires rate != 0.0
    ensures |SplitLines(Render(EstimatedTrack(SplitIntoSentences(t), language, rate)))|
            > |EstimatedTrack(SplitIntoSentences(t), language, rate)|
  {
    LineBreakInsideSentence(t, s1, s2);
    var sentences := SplitIntoSentences(t);
    EstimatedTrackTiming(sentences, language, rate);
    LineBreakAddsLine(EstimatedTrack(sentences, language, rate), 0);
  }
}
