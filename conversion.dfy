/** The conversion as a whole: `markdown_to_mp3` (md2mp3.py:440-582) and
    the rate check of `main` (md2mp3.py:621-623). Everything the program
    learns from the outside world (the document's extracted text, whether
    ffmpeg is installed, what each synthesis, merge and re-timing attempt
    did) is one `Environment` value; the result is what the run leaves
    behind: its verdict, the kind of audio written and the caption text. */
module Conversion {
  import opened Wrappers
  import opened Text
  import opened Segmenter
  import opened Lrc
  import opened Orchestrator
  import opened Timeline

  /** The outside world as the program meets it. `text` is the plain text
      extracted from the document, or `None` when the file does not exist;
      `clips` holds the outcome of each per-sentence synthesis (sentences
      past its end fail). */
  datatype Environment = Environment(
    text: Option<string>,
    ffmpeg: bool,
    clips: seq<ClipOutcome>,
    merged: bool,
    speechSaved: bool,
    tempoChanged: bool)

  /** The audio file a run leaves: none, the whole text spoken at once, or
      the merged per-sentence clips; `retimed` tells whether the speed
      change was applied to it. */
  datatype Audio = NoAudio | WholeText(retimed: bool) | MergedClips(clips: seq<nat>, retimed: bool)

  datatype Report = Report(success: bool, audio: Audio, lrc: Option<string>)

  /** One outcome per sentence. */
  function Outcomes(clips: seq<ClipOutcome>, n: nat): (outcomes: seq<ClipOutcome>)
    ensures |outcomes| == n
  {
    seq(n, i requires 0 <= i < n => if i < |clips| then clips[i] else Failed)
  }

  /** `adjust_audio_speed` succeeds: it needs ffmpeg and a successful
      re-encoding; it is only attempted when the rate is not 1. */
  function Retimed(env: Environment, rate: real): bool {
    rate != 1.0 && env.ffmpeg && env.tempoChanged
  }

  /** Accurate subtitles stay requested only when ffmpeg is there. */
  function AccurateKept(env: Environment, subtitle: bool, accurate: bool): bool {
    accurate && (!subtitle || env.ffmpeg)
  }

  /** The accurate mode's result, or `None` when it falls through: the
      synthesis gave nothing or an empty list of timestamps. */
  function AccurateRun(env: Environment, text: string, language: string, rate: real): Option<Report> {
    var sentences := SplitIntoSentences(text);
    var synthesis := Synthesized(sentences, language, rate, env.ffmpeg, Outcomes(env.clips, |sentences|), env.merged);
    if synthesis.Some? && synthesis.value.timestamps != [] then
      Some(Report(true, MergedClips(synthesis.value.clips, Retimed(env, rate)),
                  Some(Render(Captions(sentences, synthesis.value.timestamps)))))
    else None
  }

  /** The plain mode: the whole text spoken at once, then estimated
      captions when they were asked for and accurate ones were not. An
      estimate at rate 0 divides by zero and the run fails after the audio
      was written. */
  function PlainRun(env: Environment, text: string, language: string, rate: real, estimate: bool): Report {
    if !env.speechSaved then Report(false, NoAudio, None)
    else if !estimate then Report(true, WholeText(Retimed(env, rate)), None)
    else if rate == 0.0 then Report(false, WholeText(Retimed(env, rate)), None)
    else Report(true, WholeText(Retimed(env, rate)),
                Some(Render(EstimatedTrack(SplitIntoSentences(text), language, rate))))
  }

  /** What `markdown_to_mp3` leaves behind. A run that writes captions
      succeeds, and a run that succeeds has written audio. */
  function Convert(env: Environment, language: string, rate: real, subtitle: bool, accurate: bool): (r: Report)
    ensures r.lrc.Some? ==> r.success
    ensures r.success ==> r.audio != NoAudio
  {
    if env.text.None? || Strip(env.text.value) == [] then Report(false, NoAudio, None)
    else
      var text := env.text.value;
      var keep := AccurateKept(env, subtitle, accurate);
      var measured := if subtitle && keep then AccurateRun(env, text, language, rate) else None;
      if measured.Some? then measured.value
      else PlainRun(env, text, language, rate, subtitle && !keep)
  }

  /** `markdown_to_mp3(markdown_path, language, rate, generate_subtitle,
      accurate_subtitle)` */
  method MarkdownToMp3(env: Environment, language: string, rate: real, subtitle: bool, accurate: bool)
    returns (report: Report)
    ensures report == Convert(env, language, rate, subtitle, accurate)
  {
    if env.text.None? {
      return Report(false, NoAudio, None);
    }
    var text := env.text.value;
    if |Strip(text)| == 0 {
      return Report(false, NoAudio, None);
    }
    var accurateSubtitle := accurate;
    if subtitle && accurateSubtitle && !env.ffmpeg {
      accurateSubtitle := false;
    }
    if subtitle && accurateSubtitle {
      var sentences := SplitIntoSentences(text);
      var result := GenerateAudioWithTimestamps(sentences, language, rate, env.ffmpeg,
                                                Outcomes(env.clips, |sentences|), env.merged);
      if result.Some? && result.value.timestamps != [] {
        var retimed := Retimed(env, rate);
        var lrc := GenerateLrcAccurate(sentences, result.value.timestamps);
        return Report(true, MergedClips(result.value.clips, retimed), Some(lrc));
      }
    }
    if !env.speechSaved {
      return Report(false, NoAudio, None);
    }
    var retimed := Retimed(env, rate);
    if subtitle && !accurateSubtitle {
      if rate == 0.0 {
        return Report(false, WholeText(retimed), None);
      }
      var lrc := GenerateLrc(text, language, rate);
      return Report(true, WholeText(retimed), Some(lrc));
    }
    return Report(true, WholeText(retimed), None);
  }

  /** `main`: a rate outside (0, 4] ends the program with status 1 before
      anything is read, leaving no audio and no caption file; otherwise the
      run is the conversion and the status tells whether it succeeded.
      `report` is what the run leaves behind. */
  method RunCli(env: Environment, language: string, rate: real, subtitle: bool, accurate: bool)
    returns (status: int, report: Report)
    ensures status == 0 || status == 1
    ensures status == 0 <==> report.success
    ensures !(0.0 < rate <= 4.0) ==> status == 1 && report == Report(false, NoAudio, None)
    ensures 0.0 < rate <= 4.0 ==> report == Convert(env, language, rate, subtitle, accurate)
  {
    if rate <= 0.0 || rate > 4.0 {
      return 1, Report(false, NoAudio, None);
    }
    report := MarkdownToMp3(env, language, rate, subtitle, accurate);
    status := if report.success then 0 else 1;
  }

  // ---------------------------------------------------------------------
  // Lemmas

  /** A missing document, or one whose text is blank, fails at once and
      writes nothing. */
  lemma BlankDocumentFails(env: Environment, language: string, rate: real, subtitle: bool, accurate: bool)
    requires env.text.None? || AllSpace(env.text.value)
    ensures Convert(env, language, rate, subtitle, accurate) == Report(false, NoAudio, None)
  {
    if env.text.Some? {
      StripEmptyIff(env.text.value);
    }
  }

  /** A document with text runs the mode that the flags and ffmpeg select:
      the accurate one when it goes through, the plain one otherwise. */
  lemma ConvertText(env: Environment, language: string, rate: real, subtitle: bool, accurate: bool)
    requires env.text.Some? && !AllSpace(env.text.value)
    ensures var keep := AccurateKept(env, subtitle, accurate);
            var measured := if subtitle && keep then AccurateRun(env, env.text.value, language, rate) else None;
            Convert(env, language, rate, subtitle, accurate)
            == if measured.Some? then measured.value
               else PlainRun(env, env.text.value, language, rate, subtitle && !keep)
  {
    StripEmptyIff(env.text.value);
  }

  /** Without the subtitle flag no caption file is written, and a document
      with text succeeds exactly when the whole-text speech is saved. */
  lemma NoSubtitleNoCaptions(env: Environment, language: string, rate: real, accurate: bool)
    requires env.text.Some? && !AllSpace(env.text.value)
    ensures Convert(env, language, rate, false, accurate).lrc == None
    ensures Convert(env, language, rate, false, accurate).success == env.speechSaved
  {
    ConvertText(env, language, rate, false, accurate);
    assert Convert(env, language, rate, false, accurate) == PlainRun(env, env.text.value, language, rate, false);
  }

  /** Accurate captions asked for without ffmpeg are downgraded: the speech
      is the whole text, never re-timed, and the captions are the estimated
      ones. */
  lemma AccurateWithoutFfmpegEstimates(env: Environment, language: string, rate: real)
    requires env.text.Some? && !AllSpace(env.text.value)
    requires !env.ffmpeg && env.speechSaved && rate != 0.0
    ensures Convert(env, language, rate, true, true)
            == Report(true, WholeText(false),
                      Some(Render(EstimatedTrack(SplitIntoSentences(env.text.value), language, rate))))
  {
    ConvertText(env, language, rate, true, true);
    assert !AccurateKept(env, true, true);
    assert Convert(env, language, rate, true, true) == PlainRun(env, env.text.value, language, rate, true);
  }

  /** When the per-sentence merge fails, control falls through to the plain
      mode but the accurate flag is still set, so no caption file at all is
      written; success then rests on the whole-text speech alone. */
  lemma FailedMergeWritesNoCaptions(env: Environment, language: string, rate: real)
    requires env.text.Some? && !AllSpace(env.text.value)
    requires env.ffmpeg && !env.merged
    ensures Convert(env, language, rate, true, true).lrc == None
    ensures Convert(env, language, rate, true, true).success == env.speechSaved
    ensures Convert(env, language, rate, true, true).audio.WholeText?
            || Convert(env, language, rate, true, true).audio.NoAudio?
  {
    var text := env.text.value;
    ConvertText(env, language, rate, true, true);
    assert AccurateKept(env, true, true);
    assert AccurateRun(env, text, language, rate) == None;
    assert Convert(env, language, rate, true, true) == PlainRun(env, text, language, rate, false);
  }

  /** When the accurate mode goes through, every sentence of the text gets
      its caption, in order, the first at time zero; the audio is the merge
      of the kept clips. */
  lemma AccurateCaptionsEverySentence(env: Environment, language: string, rate: real)
    requires env.text.Some? && !AllSpace(env.text.value)
    requires env.ffmpeg && env.merged
    ensures var sentences := SplitIntoSentences(env.text.value);
            var outcomes := Outcomes(env.clips, |sentences|);
            var timestamps := Starts(Advances(sentences, language, rate, outcomes));
            var report := Convert(env, language, rate, true, true);
            && sentences != []
            && report.success
            && report.audio == MergedClips(KeptClips(outcomes, rate), Retimed(env, rate))
            && report.lrc == Some(Render(Captions(sentences, timestamps)))
            && |Captions(sentences, timestamps)| == |sentences|
            && Captions(sentences, timestamps)[0] == Caption(0.0, sentences[0])
  {
    var text := env.text.value;
    var sentences := SplitIntoSentences(text);
    var outcomes := Outcomes(env.clips, |sentences|);
    var timestamps := Starts(Advances(sentences, language, rate, outcomes));
    NonBlankTextHasSentence(text);
    TimestampSteps(sentences, language, rate, outcomes);
    var synthesis := Synthesized(sentences, language, rate, env.ffmpeg, outcomes, env.merged);
    assert synthesis == Some(Synthesis(KeptClips(outcomes, rate), timestamps));
    var report := Report(true, MergedClips(KeptClips(outcomes, rate), Retimed(env, rate)),
                         Some(Render(Captions(sentences, timestamps))));
    assert AccurateRun(env, text, language, rate) == Some(report);
    ConvertText(env, language, rate, true, true);
    assert AccurateKept(env, true, true);
  }

  /** For a document with text, the audio is the merge of per-sentence
      clips exactly when accurate captions were asked for, ffmpeg is there
      and the merge succeeded; every other run speaks the whole text at
      once, or writes no audio. */
  lemma AccurateModeIff(env: Environment, language: string, rate: real, subtitle: bool, accurate: bool)
    requires env.text.Some? && !AllSpace(env.text.value)
    ensures Convert(env, language, rate, subtitle, accurate).audio.MergedClips?
            <==> subtitle && accurate && env.ffmpeg && env.merged
  {
    if subtitle && accurate && env.ffmpeg && env.merged {
      AccurateCaptionsEverySentence(env, language, rate);
    } else if subtitle && accurate && env.ffmpeg {
      FailedMergeWritesNoCaptions(env, language, rate);
    } else {
      ConvertText(env, language, rate, subtitle, accurate);
      assert !(subtitle && AccurateKept(env, subtitle, accurate));
      assert Convert(env, language, rate, subtitle, accurate)
             == PlainRun(env, env.text.value, language, rate, subtitle && !AccurateKept(env, subtitle, accurate));
    }
  }

  /** The speech is only ever re-timed with ffmpeg present and a rate other
      than 1. */
  lemma RetimedNeedsFfmpeg(env: Environment, language: string, rate: real, subtitle: bool, accurate: bool)
    ensures var audio := Convert(env, language, rate, subtitle, accurate).audio;
            !audio.NoAudio? && audio.retimed ==> env.ffmpeg && rate != 1.0
  {
  }

  /** An accepted rate with estimated captions never hits the division by
      zero: the run succeeds exactly when the document has text and the
      speech is saved. */
  lemma EstimatedModeSucceeds(env: Environment, language: string, rate: real)
    requires 0.0 < rate <= 4.0
    ensures Convert(env, language, rate, true, false).success
            <==> env.text.Some? && !AllSpace(env.text.value) && env.speechSaved
  {
    if env.text.Some? && !AllSpace(env.text.value) {
      ConvertText(env, language, rate, true, false);
      assert !AccurateKept(env, true, false);
      assert Convert(env, language, rate, true, false) == PlainRun(env, env.text.value, language, rate, true);
    } else {
      BlankDocumentFails(env, language, rate, true, false);
    }
  }
}
