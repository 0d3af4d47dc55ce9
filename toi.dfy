/** The TESS part of `get_discovery_year` (scripts/test_data.py:185-204):
    every Confirmed TOI matches exactly one confirmed planet by position and
    the two share a year; no Candidate TOI matches any. There is no
    exclusion list here. */
module ToiReconcile {
  import opened Common
  import opened Tables
  import opened Matching
  import opened Linking

  /** Lines 189-197 for row i. */
  function ConfirmedResolution(con: seq<Confirmed>, toi: seq<Toi>, i: nat): (r: Resolution)
    requires i < |toi|
    ensures r.Linked? ==> r.partner < |con|
  {
    if toi[i].disp != ConfirmedLabel then Unlinked
    else
      var ms := MatchIndices(con, toi[i].pos);
      if |ms| == 1 then Linked(ms[0]) else Fault(ToiConfirmedMatchCount(i, |ms|))
  }

  function ConfirmedResolutions(con: seq<Confirmed>, toi: seq<Toi>): (res: seq<Resolution>)
    ensures |res| == |toi| && Partnered(res, |con|)
    ensures forall i :: 0 <= i < |toi| ==> res[i] == ConfirmedResolution(con, toi, i)
  {
    seq(|toi|, i requires 0 <= i < |toi| => ConfirmedResolution(con, toi, i))
  }

  /** Lines 200-204 for row i. */
  function CandidateResolution(con: seq<Confirmed>, toi: seq<Toi>, i: nat): Resolution
    requires i < |toi|
  {
    if toi[i].disp != CandidateLabel then Unlinked
    else
      var ms := MatchIndices(con, toi[i].pos);
      if |ms| != 0 then Fault(ToiCandidateOverlap(i, |ms|)) else Unlinked
  }

  function CandidateResolutions(con: seq<Confirmed>, toi: seq<Toi>): (res: seq<Resolution>)
    ensures |res| == |toi|
    ensures forall i :: 0 <= i < |toi| ==> res[i] == CandidateResolution(con, toi, i)
  {
    seq(|toi|, i requires 0 <= i < |toi| => CandidateResolution(con, toi, i))
  }

  /** A Confirmed TOI is linked exactly to the one confirmed planet it
      matches, and to no other. */
  lemma {:induction false} LinkIsTheMatch(con: seq<Confirmed>, toi: seq<Toi>, i: nat, j: nat)
    requires i < |toi| && j < |con| && toi[i].disp == ConfirmedLabel
    requires ConfirmedResolution(con, toi, i).Linked?
    ensures ConfirmedResolution(con, toi, i) == Linked(j) <==> Matches(con[j], toi[i].pos)
  {
    if Matches(con[j], toi[i].pos) {
      SingleMatchIsUnique(con, toi[i].pos, j);
    }
  }

  /** The Confirmed loop runs to the end exactly when every Confirmed TOI
      has exactly one match. */
  lemma {:induction false} ConfirmedLoopFails(con: seq<Confirmed>, toi: seq<Toi>)
    ensures FirstFault(ConfirmedResolutions(con, toi)).None? <==>
      forall i :: 0 <= i < |toi| && toi[i].disp == ConfirmedLabel ==> |MatchIndices(con, toi[i].pos)| == 1
  {
    var res := ConfirmedResolutions(con, toi);
    if FirstFault(res).None? {
      forall i | 0 <= i < |toi| && toi[i].disp == ConfirmedLabel
        ensures |MatchIndices(con, toi[i].pos)| == 1
      {
        assert !res[i].Fault?;
      }
    }
  }

  /** The Candidate loop runs to the end exactly when no Candidate TOI
      matches a confirmed planet. */
  lemma {:induction false} CandidateLoopFails(con: seq<Confirmed>, toi: seq<Toi>)
    ensures FirstFault(CandidateResolutions(con, toi)).None? <==>
      forall i :: 0 <= i < |toi| && toi[i].disp == CandidateLabel ==> MatchIndices(con, toi[i].pos) == []
  {
    var res := CandidateResolutions(con, toi);
    if FirstFault(res).None? {
      forall i | 0 <= i < |toi| && toi[i].disp == CandidateLabel
        ensures MatchIndices(con, toi[i].pos) == []
      {
        assert !res[i].Fault?;
      }
    }
  }
}
