/** The Kepler part of `get_discovery_year` (scripts/test_data.py:138-181):
    a Confirmed KOI is tied to its confirmed planet by position, or, for a
    dozen KOIs whose catalog period is off, by a hand-written planet name;
    a Candidate KOI must match no confirmed planet. The year a KOI brings is
    its `koi_year`, copied into its `year_disc` at line 138. */
module KoiReconcile {
  import opened Common
  import opened Tables
  import opened Matching
  import opened Linking

  /** KOIs whose period fails the strict match (line 149). */
  const Excluded: seq<string> := [
    "KOI-806.01", "KOI-806.03", "KOI-142.01", "KOI-1274.01",
    "KOI-1474.01", "KOI-1599.01", "KOI-377.01", "KOI-377.02",
    "KOI-4441.01", "KOI-5568.01", "KOI-5475.01", "KOI-5622.01"]

  /** The confirmed-table name of each entry of `Excluded`, position by
      position (line 153). */
  const Real: seq<string> := [
    "Kepler-30 d", "Kepler-30 b", "KOI-142 b", "Kepler-421 b",
    "Kepler-419 b", "KOI-1599.01", "Kepler-9 b", "Kepler-9 c",
    "Kepler-1604 b", "Kepler-1633 b", "Kepler-1632 b", "Kepler-1635 b"]

  /** `list.index`: the first position holding `x`. */
  function IndexOf(s: seq<string>, x: string): (k: nat)
    requires x in s
    ensures k < |s| && s[k] == x
    ensures forall l :: 0 <= l < k ==> s[l] != x
  {
    if s[0] == x then 0 else 1 + IndexOf(s[1..], x)
  }

  /** The confirmed name that stands in for an excluded KOI. */
  function RealName(name: string): (r: string)
    requires name in Excluded
  {
    Real[IndexOf(Excluded, name)]
  }

  /** Lines 158-173 for row i: a unique positional match links; otherwise the
      KOI must be excluded and its stand-in name must name exactly one
      confirmed planet, which it then links to. */
  function ConfirmedResolution(con: seq<Confirmed>, koi: seq<Koi>, i: nat): (r: Resolution)
    requires i < |koi|
    ensures r.Linked? ==> r.partner < |con|
  {
    if koi[i].disp != ConfirmedLabel then Unlinked
    else
      var ms := MatchIndices(con, koi[i].pos);
      if |ms| == 1 then Linked(ms[0])
      else if koi[i].name !in Excluded then Fault(KoiConfirmedMatchCount(i, |ms|))
      else
        var byName := NameIndices(con, RealName(koi[i].name));
        if |byName| == 1 then Linked(byName[0]) else Fault(KoiNameLookup(i, |byName|))
  }

  function ConfirmedResolutions(con: seq<Confirmed>, koi: seq<Koi>): (res: seq<Resolution>)
    ensures |res| == |koi| && Partnered(res, |con|)
    ensures forall i :: 0 <= i < |koi| ==> res[i] == ConfirmedResolution(con, koi, i)
  {
    seq(|koi|, i requires 0 <= i < |koi| => ConfirmedResolution(con, koi, i))
  }

  /** Lines 176-181 for row i: a Candidate KOI may match nothing. */
  function CandidateResolution(con: seq<Confirmed>, koi: seq<Koi>, i: nat): Resolution
    requires i < |koi|
  {
    if koi[i].disp != CandidateLabel then Unlinked
    else
      var ms := MatchIndices(con, koi[i].pos);
      if |ms| != 0 then Fault(KoiCandidateOverlap(i, |ms|)) else Unlinked
  }

  function CandidateResolutions(con: seq<Confirmed>, koi: seq<Koi>): (res: seq<Resolution>)
    ensures |res| == |koi|
    ensures forall i :: 0 <= i < |koi| ==> res[i] == CandidateResolution(con, koi, i)
  {
    seq(|koi|, i requires 0 <= i < |koi| => CandidateResolution(con, koi, i))
  }

  /** The two lists are parallel, and an excluded KOI's stand-in is the
      entry at its own position: KOI-142.01 is KOI-142 b. */
  lemma StandIns(a: string)
    requires a == "KOI-142.01"
    ensures |Excluded| == |Real| == 12
    ensures a in Excluded && RealName(a) == "KOI-142 b"
  {
    assert IndexOf(Excluded, a) == 2 by {
      assert Excluded[2] == a;
      assert Excluded[0][4] == '8' && Excluded[1][4] == '8' && a[4] == '1';
    }
  }

  /** A linked Confirmed KOI either matches its planet by position or is an
      excluded KOI whose stand-in name is that planet's. */
  lemma LinkJustified(con: seq<Confirmed>, koi: seq<Koi>, i: nat)
    requires i < |koi| && ConfirmedResolution(con, koi, i).Linked?
    ensures var j := ConfirmedResolution(con, koi, i).partner;
      koi[i].disp == ConfirmedLabel &&
      (Matches(con[j], koi[i].pos) ||
       (koi[i].name in Excluded && con[j].name == RealName(koi[i].name)))
  {
  }

  /** The Confirmed loop runs to the end exactly when every Confirmed KOI
      has a unique positional match, or is excluded with a unique stand-in. */
  lemma {:induction false} ConfirmedLoopFails(con: seq<Confirmed>, koi: seq<Koi>)
    ensures FirstFault(ConfirmedResolutions(con, koi)).None? <==>
      forall i :: 0 <= i < |koi| && koi[i].disp == ConfirmedLabel ==>
        |MatchIndices(con, koi[i].pos)| == 1 ||
        (koi[i].name in Excluded && |NameIndices(con, RealName(koi[i].name))| == 1)
  {
    var res := ConfirmedResolutions(con, koi);
    if FirstFault(res).None? {
      forall i | 0 <= i < |koi| && koi[i].disp == ConfirmedLabel
        ensures |MatchIndices(con, koi[i].pos)| == 1 ||
          (koi[i].name in Excluded && |NameIndices(con, RealName(koi[i].name))| == 1)
      {
        assert !res[i].Fault?;
      }
    }
  }

  /** The Candidate loop runs to the end exactly when no Candidate KOI
      matches a confirmed planet. */
  lemma {:induction false} CandidateLoopFails(con: seq<Confirmed>, koi: seq<Koi>)
    ensures FirstFault(CandidateResolutions(con, koi)).None? <==>
      forall i :: 0 <= i < |koi| && koi[i].disp == CandidateLabel ==> MatchIndices(con, koi[i].pos) == []
  {
    var res := CandidateResolutions(con, koi);
    if FirstFault(res).None? {
      forall i | 0 <= i < |koi| && koi[i].disp == CandidateLabel
        ensures MatchIndices(con, koi[i].pos) == []
      {
        assert !res[i].Fault?;
      }
    }
  }
}
