/** The accumulation loop of `generate_audio_with_timestamps`
    (md2mp3.py:281-366). Speech synthesis, the duration probe and the
    final merge are external processes; their results are supplied as
    inputs: whether ffmpeg is present, one outcome per sentence, and whether
    the merge succeeded. What the loop itself decides is modelled: the
    timestamp of every sentence and the list of clips handed to the merge. */
module Orchestrator {
  import opened Wrappers
  import opened Text
  import opened Estimator
  import opened Timeline

  /** What happened to one sentence's clip: synthesis raised, or the clip
      was saved and the probe did or did not report its length. */
  datatype ClipOutcome = Failed | Saved(probe: Option<real>)

  /** What a successful run hands back: the indices of the clips merged into
      the output, in order, and the start time of every sentence. */
  datatype Synthesis = Synthesis(clips: seq<nat>, timestamps: seq<real>)

  /** The clip is kept: it was saved and dividing its length by the rate did
      not raise (a zero rate raises inside the `try` like a failed save). */
  predicate Kept(outcome: ClipOutcome, rate: real) {
    outcome.Saved? && rate != 0.0
  }

  /** The clip's length at normal speed: the probe's answer, or the
      estimate at rate 1 when the probe gave none. */
  function ClipLength(sentence: string, language: string, outcome: ClipOutcome): (d: real)
    requires outcome.Saved?
    ensures outcome.probe.None? ==> d >= 0.0
  {
    match outcome.probe
    case Some(probed) => probed
    case None => EstimateDuration(sentence, language, 1.0)
  }

  /** How far the clock moves for one sentence: a kept clip's length over
      the rate, two seconds otherwise. */
  function Advance(sentence: string, language: string, rate: real, outcome: ClipOutcome): real {
    if Kept(outcome, rate) then ClipLength(sentence, language, outcome) / rate else 2.0
  }

  function Advances(sentences: seq<string>, language: string, rate: real, outcomes: seq<ClipOutcome>): (ds: seq<real>)
    requires |outcomes| == |sentences|
    ensures |ds| == |sentences|
  {
    seq(|sentences|, i requires 0 <= i < |sentences| => Advance(sentences[i], language, rate, outcomes[i]))
  }

  /** The indices of the kept clips, in order. */
  function KeptClips(outcomes: seq<ClipOutcome>, rate: real): seq<nat> {
    if outcomes == [] then []
    else
      var n := |outcomes| - 1;
      KeptClips(outcomes[..n], rate) + (if Kept(outcomes[n], rate) then [n] else [])
  }

  /** The result of the whole routine: nothing without ffmpeg or when the
      merge fails, otherwise the kept clips and the running start times. */
  function Synthesized(sentences: seq<string>, language: string, rate: real, ffmpeg: bool,
                       outcomes: seq<ClipOutcome>, merged: bool): Option<Synthesis>
    requires |outcomes| == |sentences|
  {
    if !ffmpeg || !merged then None
    else Some(Synthesis(KeptClips(outcomes, rate), Starts(Advances(sentences, language, rate, outcomes))))
  }

  /** `generate_audio_with_timestamps(sentences, language, rate)` */
  method GenerateAudioWithTimestamps(sentences: seq<string>, language: string, rate: real, ffmpeg: bool,
                                     outcomes: seq<ClipOutcome>, merged: bool)
    returns (result: Option<Synthesis>)
    requires |outcomes| == |sentences|
    ensures result == Synthesized(sentences, language, rate, ffmpeg, outcomes, merged)
  {
    if !ffmpeg {
      return None;
    }
    ghost var advances := Advances(sentences, language, rate, outcomes);
    var clips: seq<nat> := [];
    var timestamps: seq<real> := [];
    var currentTime := 0.0;
    for i := 0 to |sentences|
      invariant currentTime == Sum(advances[..i])
      invariant timestamps == Starts(advances[..i])
      invariant clips == KeptClips(outcomes[..i], rate)
    {
      LoopStep(advances, outcomes, rate, i);
      timestamps := timestamps + [currentTime];
      match outcomes[i]
      case Saved(probe) =>
        var duration := if probe.Some? then probe.value else EstimateDuration(sentences[i], language, 1.0);
        if rate == 0.0 {
          // dividing by a zero rate raises and lands in the failure branch
          currentTime := currentTime + 2.0;
        } else {
          var adjusted := duration / rate;
          clips := clips + [i];
          currentTime := currentTime + adjusted;
        }
      case Failed =>
        currentTime := currentTime + 2.0;
    }
    assert advances[..|sentences|] == advances;
    assert outcomes[..|sentences|] == outcomes;
    if !merged {
      return None;
    }
    return Some(Synthesis(clips, timestamps));
  }

  /** One turn of the loop: the sentence's timestamp is the running total,
      the total grows by its advance, and its clip is appended if kept. */
  lemma LoopStep(advances: seq<real>, outcomes: seq<ClipOutcome>, rate: real, i: nat)
    requires i < |advances| && i < |outcomes|
    ensures Sum(advances[..i + 1]) == Sum(advances[..i]) + advances[i]
    ensures Starts(advances[..i + 1]) == Starts(advances[..i]) + [Sum(advances[..i])]
    ensures KeptClips(outcomes[..i + 1], rate)
            == KeptClips(outcomes[..i], rate) + (if Kept(outcomes[i], rate) then [i] else [])
  {
    assert advances[..i + 1] == advances[..i] + [advances[i]];
    StartsSnoc(advances[..i], advances[i]);
    SumStep(advances, i);
    assert outcomes[..i + 1][..i] == outcomes[..i];
  }

  // ---------------------------------------------------------------------
  // Lemmas

  /** Every sentence gets a timestamp, failed ones included; the first is
      zero and each next one adds what the sentence before it contributed:
      its probed length over the rate, its estimate at rate 1 over the rate
      when the probe gave nothing, or two seconds when it failed. */
  lemma TimestampSteps(sentences: seq<string>, language: string, rate: real, outcomes: seq<ClipOutcome>)
    requires |outcomes| == |sentences|
    ensures |Starts(Advances(sentences, language, rate, outcomes))| == |sentences|
    ensures sentences != [] ==> Starts(Advances(sentences, language, rate, outcomes))[0] == 0.0
    ensures forall i :: 0 <= i < |sentences| - 1 && outcomes[i].Failed? ==>
              Starts(Advances(sentences, language, rate, outcomes))[i + 1]
              == Starts(Advances(sentences, language, rate, outcomes))[i] + 2.0
    ensures forall i :: 0 <= i < |sentences| - 1 && rate != 0.0 && outcomes[i].Saved? && outcomes[i].probe.Some? ==>
              Starts(Advances(sentences, language, rate, outcomes))[i + 1]
              == Starts(Advances(sentences, language, rate, outcomes))[i] + outcomes[i].probe.value / rate
    ensures forall i :: 0 <= i < |sentences| - 1 && rate != 0.0 && outcomes[i] == Saved(None) ==>
              Starts(Advances(sentences, language, rate, outcomes))[i + 1]
              == Starts(Advances(sentences, language, rate, outcomes))[i]
                 + EstimateDuration(sentences[i], language, 1.0) / rate
  {
    var ds := Advances(sentences, language, rate, outcomes);
    var ts := Starts(ds);
    if sentences != [] {
      StartsAtZero(ds);
    }
    forall i | 0 <= i < |sentences| - 1
      ensures ts[i + 1] == ts[i] + Advance(sentences[i], language, rate, outcomes[i])
    {
      StartsStep(ds, i);
    }
  }

  /** At a positive rate, and with probes that never report a negative
      length, the timestamps never go backwards. */
  lemma TimestampsNonDecreasing(sentences: seq<string>, language: string, rate: real,
                                outcomes: seq<ClipOutcome>, i: nat, j: nat)
    requires |outcomes| == |sentences|
    requires rate > 0.0
    requires forall k :: 0 <= k < |outcomes| && outcomes[k].Saved? && outcomes[k].probe.Some? ==>
               outcomes[k].probe.value >= 0.0
    requires i <= j < |sentences|
    ensures Starts(Advances(sentences, language, rate, outcomes))[i]
            <= Starts(Advances(sentences, language, rate, outcomes))[j]
  {
    var ds := Advances(sentences, language, rate, outcomes);
    forall k | 0 <= k < |ds| ensures ds[k] >= 0.0 {
      if Kept(outcomes[k], rate) {
        DivideSign(ClipLength(sentences[k], language, outcomes[k]), rate);
      }
    }
    StartsNonDecreasing(ds, i, j);
  }

  /** The merged clips are exactly the kept ones; so there may be fewer
      clips than captions. */
  lemma {:induction false} KeptClipsMembers(outcomes: seq<ClipOutcome>, rate: real)
    ensures |KeptClips(outcomes, rate)| <= |outcomes|
    ensures forall k: nat :: k in KeptClips(outcomes, rate) <==> k < |outcomes| && Kept(outcomes[k], rate)
  {
    if outcomes != [] {
      var n := |outcomes| - 1;
      KeptClipsMembers(outcomes[..n], rate);
      forall k: nat ensures k in KeptClips(outcomes, rate) <==> k < |outcomes| && Kept(outcomes[k], rate) {
        if k < n {
          assert outcomes[..n][k] == outcomes[k];
        }
      }
    }
  }

  /** The merged clips come in the order of their sentences, each once. */
  lemma {:induction false} KeptClipsIncreasing(outcomes: seq<ClipOutcome>, rate: real)
    ensures forall a, b :: 0 <= a < b < |KeptClips(outcomes, rate)| ==>
              KeptClips(outcomes, rate)[a] < KeptClips(outcomes, rate)[b]
  {
    if outcomes != [] {
      var n := |outcomes| - 1;
      var prefix := KeptClips(outcomes[..n], rate);
      var all := KeptClips(outcomes, rate);
      KeptClipsIncreasing(outcomes[..n], rate);
      KeptClipsMembers(outcomes[..n], rate);
      forall a, b | 0 <= a < b < |all| ensures all[a] < all[b] {
        if b < |prefix| {
          assert all[a] == prefix[a] && all[b] == prefix[b];
        } else {
          assert all[b] == n;
          assert all[a] == prefix[a] && prefix[a] in prefix;
        }
      }
    }
  }

  /** At rate zero every clip is dropped and each sentence adds the two
      seconds of the failure branch. */
  lemma {:induction false} ZeroRateKeepsNothing(sentences: seq<string>, language: string,
                                                outcomes: seq<ClipOutcome>)
    requires |outcomes| == |sentences|
    ensures KeptClips(outcomes, 0.0) == []
    ensures forall i :: 0 <= i < |sentences| ==>
              Starts(Advances(sentences, language, 0.0, outcomes))[i] == 2.0 * i as real
  {
    NothingKeptAtZeroRate(outcomes);
    var ds := Advances(sentences, language, 0.0, outcomes);
    forall i | 0 <= i < |sentences| ensures Starts(ds)[i] == 2.0 * i as real {
      SumOfTwos(ds[..i]);
    }
  }

  lemma {:induction false} NothingKeptAtZeroRate(outcomes: seq<ClipOutcome>)
    ensures KeptClips(outcomes, 0.0) == []
  {
    if outcomes != [] {
      NothingKeptAtZeroRate(outcomes[..|outcomes| - 1]);
    }
  }

  lemma {:induction false} SumOfTwos(ds: seq<real>)
    requires forall k :: 0 <= k < |ds| ==> ds[k] == 2.0
    ensures Sum(ds) == 2.0 * |ds| as real
  {
    if ds != [] {
      SumOfTwos(ds[..|ds| - 1]);
    }
  }
}
