# md2mp3 core in Dafny

`md2mp3.py` turns a Markdown document into spoken audio. It can also write an
LRC caption file that shows each sentence at the moment it is spoken. This
project models the part of the program that decides what gets spoken when:

- the sentence segmenter `split_into_sentences` (`segmenter.dfy`);
- the duration heuristic `estimate_duration` (`estimator.dfy`);
- the two caption builders `generate_lrc` and `generate_lrc_accurate`, with
  the `[mm:ss.xx]` time tag (`lrc.dfy`);
- the per-sentence synthesis loop of `generate_audio_with_timestamps`
  (`orchestrator.dfy`);
- the choice between the accurate and the estimated mode in
  `markdown_to_mp3`, and the rate check in `main` (`conversion.dfy`).

Shared pieces:

- `text.dfy`: Python's `str.isspace`, `strip`, `'\n'.join` and `split('\n')`.
- `timeline.dfy`: the running `current_time` accumulator as prefix sums.
- `wrappers.dfy`: an `Option` type.

The outside world is an input of the model, never an effect:

- whether ffmpeg is installed;
- the extracted document text (`None` when the file is missing);
- for each sentence, whether synthesis raised and what the duration probe
  answered;
- whether the merge, the whole-text synthesis and the speed change succeeded.

Arithmetic is exact (`real`), not binary floating point.

Choices where the model follows the code:

- **Leading terminators move to the end.** The regular expression
  `([^。！？.!?\n]+[。！？.!?\n]+)` cannot start a match on a terminator.
  Terminators at the very front of the text are therefore left behind by
  `re.sub` and become part of the last sentence. For `"。abc。"` the
  sentences are `["abc。", "。"]`. So the sentences, joined, are not the text
  up to whitespace, as one might expect. The model proves two weaker facts:
  - the sentences hold the text's non-whitespace characters as a multiset;
  - the characters come in order whenever the text does not start with a
    terminator.
- **The seconds field can read 60.** The `05.2f` format rounds the seconds
  without carrying into the minutes, so 119.996 s is written `[01:60.00]`.
- **Rate 0 is a division by zero.** `estimate_duration` divides by the rate
  only for text that is not blank; blank text gives 0 at any rate. In the
  synthesis loop the division sits inside the `try`, so at rate 0 every
  clip takes the failure branch. `main` never lets rate 0 through.
- **A sentence can hold a line break.** A line break is a terminator, so
  it can sit inside the terminator run that closes a match, and `strip()`
  trims only the ends. `"a.\n.b"` gives the sentences `"a.\n."` and `"b"`.
  The caption file then spreads the first caption over two lines, and the
  second of them, `"."`, carries no time tag. The file is one tagged line
  per caption only when no sentence holds a line break.
- **A failed merge writes no captions.** When the merge fails, or yields no
  timestamps, the accurate mode falls through to the plain one. The accurate
  flag is still set there, so no caption file is written at all, not even an
  estimated one.

## Model

| member | source | states |
|---|---|---|
| Text.IsSpace | md2mp3.py:87 | the characters `str.strip()` removes: Python's whole `isspace()` set, the ideographic space U+3000 included; see StripIsInnerSlice, StripEmptyIff and DropSpacesStrip |
| Text.Strip | md2mp3.py:87 | the result has no whitespace at either end and is no longer than the input |
| Text.StripIsInnerSlice | md2mp3.py:82 | `strip()` returns a slice of the input with only whitespace cut away on either side |
| Text.StripEmptyIff | md2mp3.py:115-117 | the stripped text is empty exactly when every character is whitespace |
| Text.StripIdempotent | md2mp3.py:87 | stripping twice is stripping once |
| Text.DropSpacesStrip | md2mp3.py:87 | stripping loses whitespace only: the non-whitespace characters stay, in order |
| Text.Join | md2mp3.py:171 | `sep.join(pieces)`; see JoinEnds, JoinBreaks and SplitJoinedLines |
| Text.JoinEnds | md2mp3.py:171 | joining non-empty pieces starts with the first piece's first character |
| Text.SplitJoinedLines | md2mp3.py:171 | splitting `'\n'.join(lines)` at line breaks gives the lines back when none holds a line break |
| Text.SplitLinesCount | md2mp3.py:171 | splitting at line breaks gives one piece more than there are line breaks |
| Text.JoinBreaks | md2mp3.py:171 | a `'\n'`-join holds the separators between the pieces plus the line breaks of any one piece |
| Segmenter.SplitIntoSentences | md2mp3.py:67-87 | the sentence list; pinned down by Decomposition, FindAllMatches, SentenceOrder and SentencesAreStripped below |
| Segmenter.FindAll | md2mp3.py:79 | `re.findall` as a left-to-right scan; see MatchAt, FindAllMatches and Decomposition |
| Segmenter.Removed | md2mp3.py:82 | `re.sub(pattern, '', text)`; see RemovedIsLeadingAndFragment |
| Segmenter.Cleaned | md2mp3.py:87 | what the comprehension keeps of one candidate: its `strip()` when not empty, nothing otherwise; see TidyOne and CleanedIsClean |
| Segmenter.Tidy | md2mp3.py:87 | the list comprehension, one Cleaned candidate after another; never longer than its input; see TidyClean, TidyAppend and DropSpacesTidy |
| Segmenter.IsTerminator | md2mp3.py:78 | the pattern's terminator class, `。！？.!?` and the line break; see RunLength, MatchAt and TerminatorRun |
| Segmenter.RunLength | md2mp3.py:78 | the run is a maximal prefix of terminators, or of non-terminators |
| Segmenter.Leading | md2mp3.py:78-82 | the text's leading terminators, where no match can start |
| Segmenter.MatchAt | md2mp3.py:78-79 | the piece the scan takes at a non-terminator is a match of the pattern, and the rest does not start with a terminator |
| Segmenter.TerminatorRun | md2mp3.py:78 | a match ends after the whole terminator run that closes it |
| Segmenter.FindAllMatches | md2mp3.py:79 | every element `re.findall` returns is a match: non-terminators, then terminators only |
| Segmenter.Decomposition | md2mp3.py:78-82 | the text is its leading terminators, then the matches in order, then the unterminated tail |
| Segmenter.RemovedIsLeadingAndFragment | md2mp3.py:82 | `re.sub` leaves the leading terminators followed by the unterminated tail |
| Segmenter.MatchThen | md2mp3.py:78-82 | a text opening with non-terminators and then terminators yields that piece first, and the scan resumes after it |
| Segmenter.TidyClean | md2mp3.py:87 | the cleaned list holds only non-empty, stripped strings |
| Segmenter.TidyAppend | md2mp3.py:87 | cleaning two lists in turn is cleaning their concatenation |
| Segmenter.DropSpacesTidy | md2mp3.py:87 | cleaning loses only whitespace characters |
| Segmenter.SentencesAreStripped | md2mp3.py:67-87 | every sentence is non-empty and equal to its own `strip()` |
| Segmenter.SentenceOrder | md2mp3.py:79-87 | the sentences are the cleaned matches in text order, followed by the stripped leftover when there is one |
| Segmenter.SentenceContent | md2mp3.py:67-87 | the sentences' non-whitespace characters are the matches' ones followed by the leading terminators and the tail's |
| Segmenter.SentencesCoverText | md2mp3.py:67-87 | the sentences hold every non-whitespace character of the text, each as often (multiset equality) |
| Segmenter.SentencesRebuildText | md2mp3.py:67-87 | when the text does not start with a terminator, the sentences joined equal the text up to whitespace |
| Segmenter.NoTerminatorText | md2mp3.py:82-87 | text without a terminator is one sentence, its stripped self, or none when blank |
| Segmenter.NonBlankTextHasSentence | md2mp3.py:67-87 | there is no sentence exactly when the text is blank |
| Segmenter.TwoMatches | md2mp3.py:78-87 | two terminated pieces in a row give the two cleaned pieces |
| Segmenter.TwoSentences | md2mp3.py:78-87 | two terminated pieces in a row whose `strip()`s are not blank give exactly those two sentences |
| Segmenter.EnglishExample | md2mp3.py:67-87 | `"Hello world. How are you?"` gives `"Hello world."` and `"How are you?"` |
| Segmenter.ChineseSentencesExample | md2mp3.py:67-87 | `"你好。今天天气不错！"` gives `"你好。"` and `"今天天气不错！"` |
| Segmenter.ScanWithLeadingTerminator | md2mp3.py:78-82 | on `"。abc。"` the scan finds one match, and `re.sub` leaves the leading `。` |
| Segmenter.LeadingTerminatorMovesToEnd | md2mp3.py:78-87 | `"。abc。"` gives `["abc。", "。"]` |
| Segmenter.SentencesReorderText | md2mp3.py:78-87 | so the sentences of `"。abc。"`, joined, are not the text |
| Segmenter.LineBreakInsideSentence | md2mp3.py:78-87 | `"a.\n.b"` gives `["a.\n.", "b"]`, and the first sentence holds a line break |
| Estimator.BaseSpeed | md2mp3.py:103-112 | 4.5 for zh-CN and zh-TW, 2.8 for en, 5.0 for ja, 4.0 otherwise (each as an if-and-only-if) |
| Estimator.Count | md2mp3.py:127-138 | `text.count(c)` is at most the text's length |
| Estimator.CountIsMultiplicity | md2mp3.py:127-138 | `text.count(c)` is the number of occurrences of `c` in the text (its multiplicity) |
| Estimator.PauseWeight | md2mp3.py:127-138 | each character's pause is between 0 and 0.5 seconds |
| Estimator.PauseTime | md2mp3.py:126-138 | the twelve weighted character counts; see PauseTimeIsPerCharacter, which equates them with the per-character sum PauseOf |
| Estimator.PauseOf | md2mp3.py:126-138 | the per-character pause total is non-negative and at most 0.5 s per character |
| Estimator.PauseTimeIsPerCharacter | md2mp3.py:126-138 | the twelve count-times-weight terms equal the sum of every character's own weight |
| Estimator.ReadingTime | md2mp3.py:115-120 | the reading term is non-negative, and zero exactly for blank text |
| Estimator.EstimateDuration | md2mp3.py:90-140 | blank text costs 0 at any rate; at a positive rate the estimate is non-negative, and positive for text that is not blank |
| Estimator.EstimateNonIncreasingInRate | md2mp3.py:120-140 | a higher rate never gives a longer estimate |
| Estimator.RateScalesReadingOnly | md2mp3.py:120-140 | without the pauses, the estimate is the reading time divided by the rate: the pauses are not scaled |
| Estimator.EstimateUpperBound | md2mp3.py:112-140 | the estimate is at most the whole length over the speed and the rate, plus 0.5 s per character |
| Estimator.ChineseExample | md2mp3.py:90-140 | `"你好。今天天气不错！"` in zh-CN at rate 1 takes more than 0 and less than 10 seconds |
| Timeline.Sum | md2mp3.py:169 | the `current_time +=` accumulation, added left to right; see SumStep, StartsStep and StartsSnoc |
| Timeline.Starts | md2mp3.py:157-169 | one start time per unit |
| Timeline.StartsAtZero | md2mp3.py:157 | the first unit starts at 0 |
| Timeline.StartsStep | md2mp3.py:165-169 | each start is the previous start plus the previous duration |
| Timeline.StartsNonDecreasing | md2mp3.py:157-169 | with no negative duration, the starts never go backwards |
| Timeline.StartsSnoc | md2mp3.py:312-314 | appending a duration appends the running total as the next start |
| Lrc.Digits | md2mp3.py:163 | decimal digits only, one exactly below 10, at most two below 100 |
| Lrc.DigitsValue | md2mp3.py:163 | the digits read back as the number |
| Lrc.Pad2 | md2mp3.py:163 | `02d` padding gives at least two characters |
| Lrc.Minutes | md2mp3.py:161 | `int(t // 60)`, rounded toward minus infinity; Seconds states that whole minutes times 60 plus the seconds give back t, and TimeTagReadsBack reads both fields back |
| Lrc.Seconds | md2mp3.py:161-162 | `t % 60` is in [0, 60), and whole minutes times 60 plus it is `t` |
| Lrc.RoundHalfEven | md2mp3.py:163 | the rounded value is within half a unit of its argument |
| Lrc.Hundredths | md2mp3.py:163 | the rounded hundredths of a seconds value are at most 6000 |
| Lrc.MinuteField | md2mp3.py:161-163 | `format(minutes, '02d')`; see TimeTagReadsBack |
| Lrc.SecondField | md2mp3.py:162-163 | `format(seconds, '05.2f')`; see TimeTagReadsBack and SecondsFieldCanReadSixty |
| Lrc.TimeTag | md2mp3.py:160-163 | the `[mm:ss.xx]` tag; see TimeTagReadsBack, SecondsFieldCanReadSixty and TimeTagHasNoLineBreak |
| Lrc.TimeTagReadsBack | md2mp3.py:160-163 | a tag for `t >= 0` parses back to a time within 0.005 s of `t` |
| Lrc.SecondsFieldCanReadSixty | md2mp3.py:161-163 | 119.996 s is tagged `[01:60.00]` |
| Lrc.TimeTagHasNoLineBreak | md2mp3.py:163 | a time tag never holds a line break |
| Lrc.Line | md2mp3.py:165 | the time tag followed by the sentence; see TimeTagHasNoLineBreak, RenderSplitsBack and LineBreakAddsLine |
| Lrc.Lines | md2mp3.py:165 | one caption line per caption |
| Lrc.Captions | md2mp3.py:187-193 | sentence `i` paired with timestamp `i`, as many as both lists cover; sentences past the last timestamp are dropped |
| Lrc.Render | md2mp3.py:171 | the caption file's text; see RenderEmptyIff, RenderSplitsBack and LineBreakAddsLine |
| Lrc.Durations | md2mp3.py:168 | one estimate per sentence, in sentence order; see EstimatedCaption and EstimatedTrackTiming |
| Lrc.EstimatedTrack | md2mp3.py:155-169 | the estimated captions; see EstimatedCaption, EstimatedTrackTiming and EstimatedTimesIncrease |
| Lrc.EstimatedCaption | md2mp3.py:159-169 | the estimated track has one caption per sentence, and caption `i` shows sentence `i` at the total of the earlier estimates |
| Lrc.GenerateLrc | md2mp3.py:143-171 | the file is the estimated track of the text's sentences, one tagged line each, joined by line breaks |
| Lrc.EstimatedLineList | md2mp3.py:156-169 | the loop writes, for each sentence in order, its estimated caption line: the tag of the running clock, then the sentence |
| Lrc.GenerateLrcAccurate | md2mp3.py:174-195 | the file is the captions pairing sentences with the supplied timestamps, joined by line breaks |
| Lrc.EstimatedTrackTiming | md2mp3.py:155-169 | every sentence once and in order; the first at 0; each next one at the previous time plus the previous sentence's estimate |
| Lrc.EstimatedTimesIncrease | md2mp3.py:159-169 | at a positive rate, captions of non-blank sentences have strictly increasing times |
| Lrc.SplitTextTimesIncrease | md2mp3.py:155-169 | at a positive rate, the estimated captions of any text have strictly increasing times |
| Lrc.RenderEmptyIff | md2mp3.py:171 | the file is empty exactly when there are no captions; otherwise it opens with `[` |
| Lrc.RenderSplitsBack | md2mp3.py:171 | splitting the file at its line breaks gives back one line per caption when no sentence holds a line break |
| Lrc.LineBreakAddsLine | md2mp3.py:163-171 | when some caption's text holds a line break, the file has more lines than captions |
| Lrc.EstimatedFileCanBreakFormat | md2mp3.py:155-171 | the estimated caption file of `"a.\n.b"` has more lines than captions |
| Orchestrator.Kept | md2mp3.py:319-334 | the clip reaches `audio_files.append` exactly when it was saved and dividing by the rate did not raise; see KeptClipsMembers and TimestampSteps |
| Orchestrator.ClipLength | md2mp3.py:324-328 | a clip's length falls back to the rate-1 estimate, which is non-negative, when the probe gives none |
| Orchestrator.Advance | md2mp3.py:324-342 | how far `current_time` moves for one sentence; see TimestampSteps |
| Orchestrator.KeptClips | md2mp3.py:331-342 | the clips appended to `audio_files`; see KeptClipsMembers and KeptClipsIncreasing |
| Orchestrator.Synthesized | md2mp3.py:295-366 | the routine's result; GenerateAudioWithTimestamps is proved equal to it |
| Orchestrator.GenerateAudioWithTimestamps | md2mp3.py:281-366 | nothing without ffmpeg or when the merge fails; otherwise the kept clips in order, and the running start time of every sentence |
| Orchestrator.LoopStep | md2mp3.py:312-342 | one turn records the running total, adds the sentence's advance, and appends the clip if it was kept |
| Orchestrator.TimestampSteps | md2mp3.py:306-342 | one timestamp per sentence, the first 0; after a failure the next is 2 s later, after a probed clip its length over the rate later, after an unprobed clip its rate-1 estimate over the rate later |
| Orchestrator.TimestampsNonDecreasing | md2mp3.py:306-342 | at a positive rate, with non-negative probes, timestamps never go backwards |
| Orchestrator.KeptClipsMembers | md2mp3.py:319-342 | the merged clips are exactly the sentences whose synthesis succeeded, so there can be fewer clips than captions |
| Orchestrator.KeptClipsIncreasing | md2mp3.py:312-342 | the merged clips are in sentence order, each once |
| Orchestrator.ZeroRateKeepsNothing | md2mp3.py:329-342 | at rate 0 no clip is kept, and sentence `i` starts at `2 i` seconds |
| Conversion.Convert | md2mp3.py:440-582 | a run that writes captions succeeds, and a run that succeeds has written audio |
| Conversion.Retimed | md2mp3.py:496-556 | the speed change was applied; see RetimedNeedsFfmpeg |
| Conversion.AccurateKept | md2mp3.py:477-481 | accurate mode survives the ffmpeg check; see AccurateWithoutFfmpegEstimates |
| Conversion.AccurateRun | md2mp3.py:484-532 | the accurate mode's result, or none when it falls through; see AccurateCaptionsEverySentence and FailedMergeWritesNoCaptions |
| Conversion.PlainRun | md2mp3.py:535-576 | the plain mode's result; see NoSubtitleNoCaptions and EstimatedModeSucceeds |
| Conversion.MarkdownToMp3 | md2mp3.py:440-582 | the report is the one the mode selection determines |
| Conversion.RunCli | md2mp3.py:618-634 | exit status 0 or 1, and 0 exactly when the run succeeds; a rate outside (0, 4] gives status 1 and leaves no audio and no caption file, any other rate leaves what the conversion leaves |
| Conversion.BlankDocumentFails | md2mp3.py:451-467 | a missing or blank document fails and writes nothing |
| Conversion.AccurateModeIff | md2mp3.py:476-562 | for a document with text, the audio is the merge of per-sentence clips exactly when subtitles and accurate mode were asked for, ffmpeg is present and the merge succeeded |
| Conversion.NoSubtitleNoCaptions | md2mp3.py:535-576 | without the subtitle flag no caption file is written, and the run succeeds exactly when the speech is saved |
| Conversion.AccurateWithoutFfmpegEstimates | md2mp3.py:477-568 | accurate captions without ffmpeg fall back to whole-text speech that is not re-timed, with the estimated captions |
| Conversion.FailedMergeWritesNoCaptions | md2mp3.py:490-562 | after a failed merge the run falls through, writes no captions, and succeeds only when the whole-text speech is saved |
| Conversion.AccurateCaptionsEverySentence | md2mp3.py:484-532 | when the merge succeeds, the run succeeds with the kept clips as audio and one caption per sentence, the first at 0 |
| Conversion.RetimedNeedsFfmpeg | md2mp3.py:494-556 | audio is only ever re-timed with ffmpeg present and a rate other than 1 |
| Conversion.EstimatedModeSucceeds | md2mp3.py:561-576 | at an accepted rate, estimated captions never fail: the run succeeds exactly when the text is not blank and the speech is saved |

## Left out

- `extract_text_from_markdown`, reading the file and checking that it exists: the model's input is the extracted text, or none for a missing file.
- gTTS, ffprobe, ffmpeg and `check_ffmpeg`: their answers are inputs (`Environment`, `ClipOutcome`, the merge flag). `get_audio_duration_ffmpeg`, `merge_audio_files_ffmpeg` and `adjust_audio_speed` are not part of this model, so neither is the tempo range of `adjust_audio_speed`.
- Merge success is an input independent of which clips were kept; a real merge of an empty clip list would fail.
- Writing files, temporary paths and cleanup: the model reports which audio and which caption text a run leaves, not where.
- Exceptions from `shutil`, `os` or file writes that the outer `try` turns into failure, other than the division by zero at rate 0.
- Printing, progress messages, argument parsing and the ffmpeg warning in `main`.
- Floating point: durations and times are exact reals. The `05.2f` rounding is modelled as exact round-half-even of the decimal value, not as rounding of the nearest binary double.
- Estimator.EstimateDuration: requires a non-zero rate for text that is not blank. Python raises `ZeroDivisionError` there; the callers model what that exception does.
- Conversion.RunCli: a Dafny `real` is never NaN. In Python `nan <= 0` and `nan > 4` are both false, so `--rate nan` passes the check at md2mp3.py:621 and the run goes on (without `-s` it can exit with status 0). The model's "status 0 only for a rate in (0, 4]" does not cover that input.
- Lrc.GenerateLrc: requires a non-zero rate when the text has sentences. `PlainRun` models the failed run that the exception causes.
