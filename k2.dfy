/** The K2 part of `get_discovery_year` (scripts/test_data.py:24-94): the name
    checks, the confirmed-row links, the hand-curated exclusions and the
    candidate rows, which take the earliest year among all revisions of their
    EPIC candidate. */
module K2Reconcile {
  import opened Common
  import opened Tables
  import opened Matching
  import opened Linking

  /** Confirmed K2 candidates whose period differs slightly or by a factor of
      two from the confirmed planet's, plus the Kruse/Heller .03 appended at
      line 48. */
  const K2Exclude: seq<string> := [
    "EPIC 201505350.01", "EPIC 201596316.01", "EPIC 201629650.01",
    "EPIC 201637175.01", "EPIC 201647718.01", "EPIC 203771098.01",
    "EPIC 206348688.02", "EPIC 210968143.01", "EPIC 212394689.02",
    "EPIC 212672300.01"] + ["EPIC 201497682.03"]

  /** Candidate K2 rows known to sit on a confirmed planet (line 80). */
  const K2Exclude2: seq<string> := ["EPIC 202126849.01", "EPIC 212555594.02", "EPIC 201357835.01"]

  /** Line 76: every K2 `year_disc` must lie before this. */
  const YearBound: int := 2040

  function CandNames(k2: seq<K2Cand>): (n: seq<string>)
    ensures |n| == |k2| && forall i :: 0 <= i < |k2| ==> n[i] == k2[i].candName
  {
    seq(|k2|, i requires 0 <= i < |k2| => k2[i].candName)
  }

  function Years(k2: seq<K2Cand>): (y: seq<int>)
    ensures |y| == |k2| && forall i :: 0 <= i < |k2| ==> y[i] == k2[i].year
  {
    seq(|k2|, i requires 0 <= i < |k2| => k2[i].year)
  }

  /** `dfk2['year'][dfk2['epic_candname'] == name].min()` for row i's name: the
      earliest revision of the same EPIC candidate (lines 62-63, 92-93). */
  function GroupYear(k2: seq<K2Cand>, i: nat): int
    requires i < |k2|
  {
    assert CandNames(k2)[i] == k2[i].candName;
    GroupMin(CandNames(k2), Years(k2), k2[i].candName).value
  }

  /** The group year is the earliest `year` among the rows of the same EPIC
      candidate: no later than any of them, and held by one of them. */
  lemma GroupYearIsMin(k2: seq<K2Cand>, i: nat)
    requires i < |k2|
    ensures GroupYear(k2, i) <= k2[i].year
    ensures exists k :: 0 <= k < |k2| && k2[k].candName == k2[i].candName && k2[k].year == GroupYear(k2, i)
    ensures forall k :: 0 <= k < |k2| && k2[k].candName == k2[i].candName ==> GroupYear(k2, i) <= k2[k].year
  {
    var names, years := CandNames(k2), Years(k2);
    assert names[i] == k2[i].candName;
    var w :| 0 <= w < |k2| && names[w] == k2[i].candName && years[w] == GroupYear(k2, i);
    assert k2[w].candName == k2[i].candName && k2[w].year == GroupYear(k2, i);
  }

  function GroupYears(k2: seq<K2Cand>): (g: seq<int>)
    ensures |g| == |k2| && forall i :: 0 <= i < |k2| ==> g[i] == GroupYear(k2, i)
  {
    seq(|k2|, i requires 0 <= i < |k2| => GroupYear(k2, i))
  }

  /** Line 29-30: every Confirmed K2 row names a planet of the confirmed table
      (a NaN name is found nowhere). */
  predicate ConfirmedNamed(con: seq<Confirmed>, k2: seq<K2Cand>) {
    forall i :: 0 <= i < |k2| && k2[i].disp == ConfirmedLabel ==>
      k2[i].plName.Some? && exists j :: 0 <= j < |con| && con[j].name == k2[i].plName.value
  }

  /** Lines 34-35: no named Candidate K2 row names a planet of the confirmed table. */
  predicate CandidatesUnconfirmed(con: seq<Confirmed>, k2: seq<K2Cand>) {
    forall i, j :: 0 <= i < |k2| && 0 <= j < |con| && k2[i].disp == CandidateLabel && k2[i].plName.Some? ==>
      con[j].name != k2[i].plName.value
  }

  /** Lines 51-68 for row i: a unique positional match links; otherwise the
      row must be excluded, and is then left alone (the write of 2050 at line
      60 goes to the row copy that `iterrows` yields and changes nothing). */
  function ConfirmedResolution(con: seq<Confirmed>, k2: seq<K2Cand>, i: nat): (r: Resolution)
    requires i < |k2|
    ensures r.Linked? ==> r.partner < |con|
  {
    if k2[i].disp != ConfirmedLabel then Unlinked
    else
      var ms := MatchIndices(con, k2[i].pos);
      if |ms| == 1 then Linked(ms[0])
      else if k2[i].candName in K2Exclude then Unlinked
      else Fault(K2ConfirmedMatchCount(i, |ms|))
  }

  function ConfirmedResolutions(con: seq<Confirmed>, k2: seq<K2Cand>): (res: seq<Resolution>)
    ensures |res| == |k2| && Partnered(res, |con|)
    ensures forall i :: 0 <= i < |k2| ==> res[i] == ConfirmedResolution(con, k2, i)
  {
    seq(|k2|, i requires 0 <= i < |k2| => ConfirmedResolution(con, k2, i))
  }

  /** The confirmed loop stops exactly when some Confirmed row has no unique
      match and is not excluded. */
  lemma {:induction false} ConfirmedLoopFails(con: seq<Confirmed>, k2: seq<K2Cand>)
    ensures FirstFault(ConfirmedResolutions(con, k2)).None? <==>
      forall i :: 0 <= i < |k2| && k2[i].disp == ConfirmedLabel ==>
        |MatchIndices(con, k2[i].pos)| == 1 || k2[i].candName in K2Exclude
  {
    var res := ConfirmedResolutions(con, k2);
    if FirstFault(res).None? {
      forall i | 0 <= i < |k2| && k2[i].disp == ConfirmedLabel
        ensures |MatchIndices(con, k2[i].pos)| == 1 || k2[i].candName in K2Exclude
      {
        assert !res[i].Fault?;
      }
    }
  }

  /** Lines 71-75: every row of an excluded candidate takes the smallest
      `year_disc` among the rows of that candidate. */
  function Settled(k2: seq<K2Cand>, cur: seq<int>): (out: seq<int>)
    requires |cur| == |k2|
    ensures |out| == |k2|
  {
    seq(|k2|, i requires 0 <= i < |k2| =>
      if k2[i].candName in K2Exclude then GroupMin(CandNames(k2), cur, k2[i].candName).value
      else cur[i])
  }

  /** The loop of lines 71-75 over the exclusion list. For each excluded
      name it takes the minimum of the current column over that name's rows
      and writes it to every one of them; a name without rows has a NaN
      minimum and no rows to write, so nothing happens. */
  method SettleExcluded(k2: seq<K2Cand>, cur: seq<int>) returns (out: seq<int>)
    requires |cur| == |k2|
    ensures out == Settled(k2, cur)
  {
    var names := CandNames(k2);
    out := cur;
    var e := 0;
    while e < |K2Exclude|
      invariant 0 <= e <= |K2Exclude| && |out| == |k2|
      invariant forall i :: 0 <= i < |k2| ==>
        out[i] == if names[i] in K2Exclude[..e] then GroupMin(names, cur, names[i]).value else cur[i]
    {
      var ival := K2Exclude[e];
      var before := out;
      out := SettleName(names, out, ival);
      SettleStep(names, cur, before, out, K2Exclude[..e], ival);
      assert K2Exclude[..e + 1] == K2Exclude[..e] + [ival];
      e := e + 1;
    }
    assert K2Exclude[..e] == K2Exclude;
  }

  /** One round of lines 72-75: the rows named `ival` all take their
      minimum; with no such row the minimum is NaN and nothing is written. */
  method SettleName(names: seq<string>, col: seq<int>, ival: string) returns (out: seq<int>)
    requires |names| == |col|
    ensures |out| == |col|
    ensures GroupMin(names, col, ival).Some? ==> forall i :: 0 <= i < |names| ==>
      out[i] == if names[i] == ival then GroupMin(names, col, ival).value else col[i]
    ensures GroupMin(names, col, ival).None? ==> out == col
  {
    var srch := Where(names, (n: string) => n == ival);
    var k2yr := GroupMin(names, col, ival);
    out := col;
    if k2yr.Some? {
      out := WriteRows(col, srch, k2yr.value);
    }
  }

  /** The inner loop of lines 74-75: write `v` at every listed row. */
  method WriteRows(col: seq<int>, rows: seq<nat>, v: int) returns (out: seq<int>)
    requires forall k :: 0 <= k < |rows| ==> rows[k] < |col|
    ensures |out| == |col|
    ensures forall i :: 0 <= i < |col| ==> out[i] == if i in rows then v else col[i]
  {
    out := col;
    var s := 0;
    while s < |rows|
      invariant 0 <= s <= |rows| && |out| == |col|
      invariant forall i :: 0 <= i < |col| ==> out[i] == if i in rows[..s] then v else col[i]
    {
      out := out[rows[s] := v];
      assert rows[..s + 1] == rows[..s] + [rows[s]];
      s := s + 1;
    }
    assert rows[..s] == rows;
  }

  /** One round of the exclusion loop keeps the loop invariant: the names
      already handled hold their group minimum of the original column. */
  lemma SettleStep(names: seq<string>, cur: seq<int>, before: seq<int>, after: seq<int>, done: seq<string>, ival: string)
    requires |names| == |cur| == |before| == |after|
    requires forall i :: 0 <= i < |names| ==>
      before[i] == if names[i] in done then GroupMin(names, cur, names[i]).value else cur[i]
    requires GroupMin(names, before, ival).Some? ==> forall i :: 0 <= i < |names| ==>
      after[i] == if names[i] == ival then GroupMin(names, before, ival).value else before[i]
    requires GroupMin(names, before, ival).None? ==> after == before
    ensures forall i :: 0 <= i < |names| ==>
      after[i] == if names[i] in done + [ival] then GroupMin(names, cur, names[i]).value else cur[i]
  {
    var mb := GroupMin(names, before, ival);
    var mc := GroupMin(names, cur, ival);
    if ival in done {
      if mc.Some? {
        GroupMinConst(names, before, ival, mc.value);
      }
    } else {
      GroupMinLocal(names, before, cur, ival);
    }
    assert mb == mc;
    forall i | 0 <= i < |names|
      ensures after[i] == if names[i] in done + [ival] then GroupMin(names, cur, names[i]).value else cur[i]
    {
      assert (names[i] in done + [ival]) == (names[i] in done || names[i] == ival);
    }
  }

  /** Line 76, where `max()` of an empty column is NaN and fails the test. */
  predicate YearsBounded(cur: seq<int>) {
    |cur| > 0 && forall i :: 0 <= i < |cur| ==> cur[i] < YearBound
  }

  /** Lines 83-90 for row i: a Candidate row may only match a confirmed
      planet if it is on the second exclusion list. */
  function CandidateResolution(con: seq<Confirmed>, k2: seq<K2Cand>, i: nat): Resolution
    requires i < |k2|
  {
    if k2[i].disp != CandidateLabel then Unlinked
    else
      var ms := MatchIndices(con, k2[i].pos);
      if |ms| != 0 && k2[i].candName !in K2Exclude2 then Fault(K2CandidateOverlap(i, |ms|))
      else Unlinked
  }

  function CandidateResolutions(con: seq<Confirmed>, k2: seq<K2Cand>): (res: seq<Resolution>)
    ensures |res| == |k2|
    ensures forall i :: 0 <= i < |k2| ==> res[i] == CandidateResolution(con, k2, i)
  {
    seq(|k2|, i requires 0 <= i < |k2| => CandidateResolution(con, k2, i))
  }

  /** Lines 92-94: every Candidate row takes the earliest year of its EPIC
      candidate, whether or not it matched. */
  function CandidateYears(k2: seq<K2Cand>, cur: seq<int>): (out: seq<int>)
    requires |cur| == |k2|
    ensures |out| == |k2|
  {
    seq(|k2|, i requires 0 <= i < |k2| =>
      if k2[i].disp == CandidateLabel then GroupYear(k2, i) else cur[i])
  }

  /** The Candidate loop of lines 83-94, given each row's verdict
      (`CandidateResolutions`): it stops at the first failing row, and
      otherwise every Candidate row takes the earliest year of its EPIC
      candidate. */
  method CandidatePass(k2: seq<K2Cand>, res: seq<Resolution>, cur: seq<int>) returns (r: Result<seq<int>>)
    requires |res| == |k2| && |cur| == |k2|
    ensures r.Err? <==> FirstFault(res).Some?
    ensures r.Err? ==> r.error == res[FirstFault(res).value].failure
    ensures r.Ok? ==> r.value == CandidateYears(k2, cur)
  {
    var gy := GroupYears(k2);
    var out := cur;
    var i := 0;
    while i < |k2|
      invariant 0 <= i <= |k2| && |out| == |k2|
      invariant forall k :: 0 <= k < i ==> !res[k].Fault?
      invariant forall k :: 0 <= k < |k2| ==>
        out[k] == if k < i && k2[k].disp == CandidateLabel then gy[k] else cur[k]
    {
      if res[i].Fault? {
        return Err(res[i].failure);
      }
      if k2[i].disp == CandidateLabel {
        out := out[i := gy[i]];
      }
      i := i + 1;
    }
    return Ok(out);
  }

  /** The Candidate loop stops exactly when a Candidate row matches a
      confirmed planet without being on the second exclusion list. */
  lemma {:induction false} CandidateLoopFails(con: seq<Confirmed>, k2: seq<K2Cand>)
    ensures FirstFault(CandidateResolutions(con, k2)).None? <==>
      forall i :: 0 <= i < |k2| && k2[i].disp == CandidateLabel ==>
        |MatchIndices(con, k2[i].pos)| == 0 || k2[i].candName in K2Exclude2
  {
    var res := CandidateResolutions(con, k2);
    if FirstFault(res).None? {
      forall i | 0 <= i < |k2| && k2[i].disp == CandidateLabel
        ensures |MatchIndices(con, k2[i].pos)| == 0 || k2[i].candName in K2Exclude2
      {
        assert !res[i].Fault?;
      }
    }
  }

  /** An excluded Confirmed row without a unique match is not linked, and
      the confirmed-row loop leaves its `year_disc` as it was: the 2050 of
      line 60 never reaches the table. */
  lemma UnmatchedExcludedKeepsYear(con: seq<Confirmed>, k2: seq<K2Cand>, cur: seq<int>, i: nat)
    requires |cur| == |k2| && i < |k2|
    requires k2[i].disp == ConfirmedLabel && k2[i].candName in K2Exclude
    requires |MatchIndices(con, k2[i].pos)| != 1
    ensures ConfirmedResolution(con, k2, i) == Unlinked
    ensures CandAfter(cur, Discs(con), GroupYears(k2), ConfirmedResolutions(con, k2))[i] == cur[i]
  {
  }

  /** After the exclusion pass all rows of one excluded candidate agree, on
      the smallest value any of them held before, and no row got later. */
  lemma SettledAgree(k2: seq<K2Cand>, cur: seq<int>, i: nat, k: nat)
    requires |cur| == |k2| && i < |k2| && k < |k2|
    requires k2[i].candName in K2Exclude && k2[k].candName == k2[i].candName
    ensures Settled(k2, cur)[i] == Settled(k2, cur)[k] <= cur[k]
    ensures exists w :: 0 <= w < |k2| && k2[w].candName == k2[i].candName && Settled(k2, cur)[i] == cur[w]
  {
    var names := CandNames(k2);
    assert names[i] == k2[i].candName;
    var m := GroupMin(names, cur, k2[i].candName);
    var w :| 0 <= w < |k2| && names[w] == k2[i].candName && cur[w] == m.value;
  }

  /** Settling never makes a row later. */
  lemma SettledBelow(k2: seq<K2Cand>, cur: seq<int>)
    requires |cur| == |k2|
    ensures forall i :: 0 <= i < |k2| ==> Settled(k2, cur)[i] <= cur[i]
  {
    var names := CandNames(k2);
    forall i | 0 <= i < |k2| ensures Settled(k2, cur)[i] <= cur[i] {
      assert names[i] == k2[i].candName;
    }
  }

  /** Two Confirmed revisions of one EPIC candidate linked to the same planet
      get the same year. */
  lemma RevisionsAgree(con: seq<Confirmed>, k2: seq<K2Cand>, cur: seq<int>, i: nat, k: nat)
    requires |cur| == |k2| && i < |k2| && k < |k2|
    requires k2[i].candName == k2[k].candName
    requires ConfirmedResolution(con, k2, i).Linked? && ConfirmedResolution(con, k2, i) == ConfirmedResolution(con, k2, k)
    ensures var after := CandAfter(cur, Discs(con), GroupYears(k2), ConfirmedResolutions(con, k2));
            after[i] == after[k]
  {
    var names := CandNames(k2);
    assert names[i] == names[k];
    assert GroupYear(k2, i) == GroupYear(k2, k);
  }
}
