/** Running start times: the `current_time` accumulator that both caption
    builders and the synthesis loop keep (md2mp3.py:155-169 and 306-342).
    Each unit starts where the previous one started plus that one's
    duration. */
module Timeline {

  /** Total of a list of durations, added left to right. */
  function Sum(ds: seq<real>): real {
    if ds == [] then 0.0 else Sum(ds[..|ds| - 1]) + ds[|ds| - 1]
  }

  /** The start of every unit: the total of the durations before it. */
  function Starts(ds: seq<real>): (ts: seq<real>)
    ensures |ts| == |ds|
  {
    seq(|ds|, i requires 0 <= i < |ds| => Sum(ds[..i]))
  }

  lemma SumStep(ds: seq<real>, i: nat)
    requires i < |ds|
    ensures Sum(ds[..i + 1]) == Sum(ds[..i]) + ds[i]
  {
    assert ds[..i + 1][..i] == ds[..i];
  }

  /** The first unit starts at time zero. */
  lemma StartsAtZero(ds: seq<real>)
    requires ds != []
    ensures Starts(ds)[0] == 0.0
  {
    assert ds[..0] == [];
  }

  /** Each start is the previous start plus the previous duration. */
  lemma StartsStep(ds: seq<real>, i: nat)
    requires i + 1 < |ds|
    ensures Starts(ds)[i + 1] == Starts(ds)[i] + ds[i]
  {
    SumStep(ds, i);
  }

  /** With no negative duration the starts never go backwards. */
  lemma {:induction false} StartsNonDecreasing(ds: seq<real>, i: nat, j: nat)
    requires forall k :: 0 <= k < |ds| ==> ds[k] >= 0.0
    requires i <= j < |ds|
    ensures Starts(ds)[i] <= Starts(ds)[j]
    decreases j - i
  {
    if i < j {
      StartsNonDecreasing(ds, i, j - 1);
      StartsStep(ds, j - 1);
    }
  }

  /** Extending the durations extends the starts: the start of a new unit is
      the total of everything before it. */
  lemma StartsSnoc(ds: seq<real>, d: real)
    ensures Starts(ds + [d]) == Starts(ds) + [Sum(ds)]
  {
    var ts := Starts(ds + [d]);
    forall i | 0 <= i < |ds| ensures ts[i] == Starts(ds)[i] {
      assert (ds + [d])[..i] == ds[..i];
    }
    assert (ds + [d])[..|ds|] == ds;
  }
}
