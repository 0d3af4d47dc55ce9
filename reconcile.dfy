/** `get_discovery_year` of scripts/test_data.py:4-206 as a whole: the K2,
    KOI and TOI passes in source order over the four loaded tables, with the
    two early KOI lists (bare tokens, before the `KOI-` prefix) and the
    archived KOI tables (their raw `kepoi_name` columns, in sorted file-name
    order) given as inputs. The result is either the first failed assertion
    or the columns the function adds. */
module Reconcile {
  import opened Common
  import opened Tables
  import opened Matching
  import opened Linking
  import opened KoiNames
  import opened Vintage
  import K2 = K2Reconcile
  import Kep = KoiReconcile
  import Tess = ToiReconcile

  /** The `year_disc` columns of the four tables and the KOI `koi_year`. */
  datatype Reconciled = Reconciled(
    conDisc: seq<int>,
    k2Disc: seq<int>,
    koiYear: seq<int>,
    koiDisc: seq<int>,
    toiDisc: seq<int>)

  /** The KOI columns after lines 99-181. */
  datatype KoiColumns = KoiColumns(con: seq<int>, koiYear: seq<int>, koiDisc: seq<int>)

  function ToiYears(toi: seq<Toi>): (y: seq<int>)
    ensures |y| == |toi| && forall i :: 0 <= i < |toi| ==> y[i] == toi[i].year
  {
    seq(|toi|, i requires 0 <= i < |toi| => toi[i].year)
  }

  /** The early lists once prefixed in place (lines 110-115). */
  function EarlyNames(tokens: seq<string>): (names: seq<string>)
    ensures |names| == |tokens| && forall i :: 0 <= i < |tokens| ==> names[i] == EarlyName(tokens[i])
  {
    seq(|tokens|, i requires 0 <= i < |tokens| => EarlyName(tokens[i]))
  }

  /** The archived name columns once rewritten (lines 118-123). */
  function ArchiveNames(raw: seq<seq<string>>): (dfs: seq<seq<string>>)
    ensures |dfs| == |raw|
    ensures forall a :: 0 <= a < |raw| ==> |dfs[a]| == |raw[a]|
    ensures forall a, k :: 0 <= a < |raw| && 0 <= k < |raw[a]| ==> dfs[a][k] == RewriteK0(raw[a][k])
  {
    seq(|raw|, a requires 0 <= a < |raw| =>
      seq(|raw[a]|, k requires 0 <= k < |raw[a]| => RewriteK0(raw[a][k])))
  }

  /** Lines 18-94: the confirmed and K2 `year_disc` columns after the K2
      part, starting from `pl_disc` and the K2 `year`. */
  function K2Stage(con: seq<Confirmed>, k2: seq<K2Cand>): (r: Result<Columns>)
    ensures r.Ok? ==> |r.value.con| == |con| && |r.value.cand| == |k2|
  {
    if !K2.ConfirmedNamed(con, k2) then Err(K2ConfirmedNameMissing)
    else if !K2.CandidatesUnconfirmed(con, k2) then Err(K2CandidateNameConfirmed)
    else
      var res := K2.ConfirmedResolutions(con, k2);
      if FirstFault(res).Some? then Err(res[FirstFault(res).value].failure)
      else
        var conDisc := ConAfter(Discs(con), Discs(con), K2.GroupYears(k2), res);
        var linked := CandAfter(K2.Years(k2), Discs(con), K2.GroupYears(k2), res);
        var settled := K2.Settled(k2, linked);
        if !K2.YearsBounded(settled) then Err(K2YearBound)
        else
          var cres := K2.CandidateResolutions(con, k2);
          if FirstFault(cres).Some? then Err(cres[FirstFault(cres).value].failure)
          else Ok(Columns(conDisc, K2.CandidateYears(k2, settled)))
  }

  /** Lines 99-181, given the confirmed `year_disc` after the K2 part. */
  function KoiStage(con: seq<Confirmed>, koi: seq<Koi>, early1: seq<string>, early2: seq<string>,
                    raw: seq<seq<string>>, conDisc: seq<int>): (r: Result<KoiColumns>)
    requires |conDisc| == |con|
    ensures r.Ok? ==> |r.value.con| == |con| && |r.value.koiYear| == |koi| && |r.value.koiDisc| == |koi|
  {
    var e1, e2, dfs := EarlyNames(early1), EarlyNames(early2), ArchiveNames(raw);
    var vf := VintageFaults(koi, e1, e2, dfs);
    if FirstFault(vf).Some? then Err(KoiYearIndex(FirstFault(vf).value))
    else
      var koiYear := VintageColumn(koi, e1, e2, dfs);
      if !RangeOk(koiYear) then Err(KoiYearRange)
      else
        var res := Kep.ConfirmedResolutions(con, koi);
        if FirstFault(res).Some? then Err(res[FirstFault(res).value].failure)
        else
          var cres := Kep.CandidateResolutions(con, koi);
          if FirstFault(cres).Some? then Err(cres[FirstFault(cres).value].failure)
          else
            Ok(KoiColumns(ConAfter(conDisc, Discs(con), koiYear, res), koiYear,
                          CandAfter(koiYear, Discs(con), koiYear, res)))
  }

  /** Lines 185-204, given the confirmed `year_disc` after the KOI part. */
  function ToiStage(con: seq<Confirmed>, toi: seq<Toi>, conDisc: seq<int>): (r: Result<Columns>)
    requires |conDisc| == |con|
    ensures r.Ok? ==> |r.value.con| == |con| && |r.value.cand| == |toi|
  {
    var res := Tess.ConfirmedResolutions(con, toi);
    if FirstFault(res).Some? then Err(res[FirstFault(res).value].failure)
    else
      var cres := Tess.CandidateResolutions(con, toi);
      if FirstFault(cres).Some? then Err(cres[FirstFault(cres).value].failure)
      else Ok(Columns(ConAfter(conDisc, Discs(con), ToiYears(toi), res),
                      CandAfter(ToiYears(toi), Discs(con), ToiYears(toi), res)))
  }

  /** The whole reconciliation: the first failed assertion, or the columns. */
  function DiscoveryYears(con: seq<Confirmed>, koi: seq<Koi>, k2: seq<K2Cand>, toi: seq<Toi>,
                          early1: seq<string>, early2: seq<string>, raw: seq<seq<string>>): Result<Reconciled>
  {
    match K2Stage(con, k2)
    case Err(e) => Err(e)
    case Ok(k) =>
      match KoiStage(con, koi, early1, early2, raw, k.con)
      case Err(e) => Err(e)
      case Ok(kc) =>
        match ToiStage(con, toi, kc.con)
        case Err(e) => Err(e)
        case Ok(t) => Ok(Reconciled(t.con, k.cand, kc.koiYear, kc.koiDisc, t.cand))
  }

  /** Lines 18-94. The K2 `year_disc` starts as `year` (line 20); the
      confirmed one as `pl_disc` (line 19). */
  method K2Pass(con: seq<Confirmed>, k2: seq<K2Cand>) returns (r: Result<Columns>)
    ensures r == K2Stage(con, k2)
  {
    if !K2.ConfirmedNamed(con, k2) {
      return Err(K2ConfirmedNameMissing);
    }
    if !K2.CandidatesUnconfirmed(con, k2) {
      return Err(K2CandidateNameConfirmed);
    }
    var disc := Discs(con);
    var linked := LinkPass(disc, disc, K2.Years(k2), K2.GroupYears(k2), K2.ConfirmedResolutions(con, k2));
    if linked.Err? {
      return Err(linked.error);
    }
    var settled := K2.SettleExcluded(k2, linked.value.cand);
    if !K2.YearsBounded(settled) {
      return Err(K2YearBound);
    }
    var cands := K2.CandidatePass(k2, K2.CandidateResolutions(con, k2), settled);
    if cands.Err? {
      return Err(cands.error);
    }
    return Ok(Columns(linked.value.con, cands.value));
  }

  /** Lines 99-181. */
  method KoiPass(con: seq<Confirmed>, koi: seq<Koi>, early1: seq<string>, early2: seq<string>,
                 raw: seq<seq<string>>, conDisc: seq<int>) returns (r: Result<KoiColumns>)
    requires |conDisc| == |con|
    ensures r == KoiStage(con, koi, early1, early2, raw, conDisc)
  {
    var k1 := new string[|early1|](i requires 0 <= i < |early1| => early1[i]);
    PrefixEarly(k1);
    var k2 := new string[|early2|](i requires 0 <= i < |early2| => early2[i]);
    PrefixEarly(k2);
    var dfs := LoadArchives(raw);
    assert k1[..] == EarlyNames(early1);
    assert k2[..] == EarlyNames(early2);
    assert dfs == ArchiveNames(raw) by {
      forall a | 0 <= a < |raw| ensures dfs[a] == ArchiveNames(raw)[a] {
      }
    }
    var years := ResolveVintages(koi, k1[..], k2[..], dfs);
    if years.Err? {
      return Err(years.error);
    }
    var koiYear := years.value;
    if !RangeOk(koiYear) {
      return Err(KoiYearRange);
    }
    var linked := LinkPass(conDisc, Discs(con), koiYear, koiYear, Kep.ConfirmedResolutions(con, koi));
    if linked.Err? {
      return Err(linked.error);
    }
    var check := CheckPass(Kep.CandidateResolutions(con, koi));
    if check.Some? {
      return Err(check.value);
    }
    return Ok(KoiColumns(linked.value.con, koiYear, linked.value.cand));
  }

  /** Lines 185-204; the TOI `year_disc` starts as `year` (line 22). */
  method ToiPass(con: seq<Confirmed>, toi: seq<Toi>, conDisc: seq<int>) returns (r: Result<Columns>)
    requires |conDisc| == |con|
    ensures r == ToiStage(con, toi, conDisc)
  {
    var years := ToiYears(toi);
    var linked := LinkPass(conDisc, Discs(con), years, years, Tess.ConfirmedResolutions(con, toi));
    if linked.Err? {
      return Err(linked.error);
    }
    var check := CheckPass(Tess.CandidateResolutions(con, toi));
    if check.Some? {
      return Err(check.value);
    }
    return Ok(linked.value);
  }

  /** `get_discovery_year`. */
  method GetDiscoveryYear(con: seq<Confirmed>, koi: seq<Koi>, k2: seq<K2Cand>, toi: seq<Toi>,
                          early1: seq<string>, early2: seq<string>, raw: seq<seq<string>>)
    returns (r: Result<Reconciled>)
    ensures r == DiscoveryYears(con, koi, k2, toi, early1, early2, raw)
  {
    var k := K2Pass(con, k2);
    if k.Err? {
      return Err(k.error);
    }
    var kc := KoiPass(con, koi, early1, early2, raw, k.value.con);
    if kc.Err? {
      return Err(kc.error);
    }
    var t := ToiPass(con, toi, kc.value.con);
    if t.Err? {
      return Err(t.error);
    }
    return Ok(Reconciled(t.value.con, k.value.cand, kc.value.koiYear, kc.value.koiDisc, t.value.cand));
  }

  /** What a successful K2 part guarantees: confirmed years never pass
      `pl_disc`, K2 years never pass the row's own `year`, a row of another
      disposition on no exclusion list keeps its `year`, a Candidate row holds
      the earliest `year` of its EPIC candidate, the name checks held, and
      every K2 row met the match rule of its disposition. */
  lemma {:induction false} K2StageFacts(con: seq<Confirmed>, k2: seq<K2Cand>)
    requires K2Stage(con, k2).Ok?
    ensures var c := K2Stage(con, k2).value;
      forall j :: 0 <= j < |con| ==> c.con[j] <= con[j].disc
    ensures var c := K2Stage(con, k2).value;
      forall i :: 0 <= i < |k2| ==> c.cand[i] <= k2[i].year
    ensures var c := K2Stage(con, k2).value;
      forall i :: (0 <= i < |k2| && k2[i].disp != ConfirmedLabel && k2[i].disp != CandidateLabel &&
                   k2[i].candName !in K2.K2Exclude) ==> c.cand[i] == k2[i].year
    ensures forall i :: 0 <= i < |k2| && k2[i].disp == ConfirmedLabel ==>
      |MatchIndices(con, k2[i].pos)| == 1 || k2[i].candName in K2.K2Exclude
    ensures forall i :: 0 <= i < |k2| && k2[i].disp == CandidateLabel ==>
      |MatchIndices(con, k2[i].pos)| == 0 || k2[i].candName in K2.K2Exclude2
    ensures var c := K2Stage(con, k2).value;
      forall i :: 0 <= i < |k2| && k2[i].disp == CandidateLabel ==> c.cand[i] == K2.GroupYear(k2, i)
    ensures K2.ConfirmedNamed(con, k2) && K2.CandidatesUnconfirmed(con, k2)
  {
    var disc := Discs(con);
    var res := K2.ConfirmedResolutions(con, k2);
    var gy := K2.GroupYears(k2);
    var linked := CandAfter(K2.Years(k2), disc, gy, res);
    var settled := K2.Settled(k2, linked);
    var c := K2Stage(con, k2).value;
    assert c.con == ConAfter(disc, disc, gy, res);
    assert c.cand == K2.CandidateYears(k2, settled);
    ConAfterBelowDisc(disc, disc, gy, res);
    CandAfterBelowCatalog(K2.Years(k2), disc, gy, res);
    K2.SettledBelow(k2, linked);
    K2.ConfirmedLoopFails(con, k2);
    K2.CandidateLoopFails(con, k2);
    forall i | 0 <= i < |k2| ensures c.cand[i] <= k2[i].year {
      K2.GroupYearIsMin(k2, i);
      assert linked[i] <= k2[i].year by {
        if res[i].Linked? {
          assert gy[i] == K2.GroupYear(k2, i);
        }
      }
    }
    forall i | 0 <= i < |k2| && k2[i].disp != ConfirmedLabel && k2[i].disp != CandidateLabel &&
      k2[i].candName !in K2.K2Exclude
      ensures c.cand[i] == k2[i].year
    {
      assert !res[i].Linked?;
    }
  }

  /** What a successful KOI part guarantees: every KOI was traced to a
      catalog and carries a year in 2011-2018; its `year_disc` is no later
      than that year and equals it unless the KOI is Confirmed; a confirmed
      year no later than `pl_disc` stays so; and every KOI met the match rule
      of its disposition. */
  lemma {:induction false} KoiStageFacts(con: seq<Confirmed>, koi: seq<Koi>, early1: seq<string>, early2: seq<string>,
                                         raw: seq<seq<string>>, conDisc: seq<int>)
    requires |conDisc| == |con|
    requires KoiStage(con, koi, early1, early2, raw, conDisc).Ok?
    ensures var kc := KoiStage(con, koi, early1, early2, raw, conDisc).value;
      forall i :: 0 <= i < |koi| ==> EarlyYear <= kc.koiYear[i] <= LatestYear
    ensures var kc := KoiStage(con, koi, early1, early2, raw, conDisc).value;
      forall i :: 0 <= i < |koi| ==> kc.koiDisc[i] <= kc.koiYear[i]
    ensures var kc := KoiStage(con, koi, early1, early2, raw, conDisc).value;
      forall i :: 0 <= i < |koi| && koi[i].disp != ConfirmedLabel ==> kc.koiDisc[i] == kc.koiYear[i]
    ensures (forall j :: 0 <= j < |con| ==> conDisc[j] <= con[j].disc) ==>
      var kc := KoiStage(con, koi, early1, early2, raw, conDisc).value;
      forall j :: 0 <= j < |con| ==> kc.con[j] <= con[j].disc
    ensures forall i :: 0 <= i < |koi| ==>
      var e1, e2, dfs := EarlyNames(early1), EarlyNames(early2), ArchiveNames(raw);
      koi[i].name in e1 || koi[i].name in e2 || exists a :: 0 <= a < |dfs| && koi[i].name in dfs[a]
    ensures forall i :: 0 <= i < |koi| && koi[i].disp == CandidateLabel ==> MatchIndices(con, koi[i].pos) == []
    ensures forall i :: 0 <= i < |koi| && koi[i].disp == ConfirmedLabel ==>
      |MatchIndices(con, koi[i].pos)| == 1 ||
      (koi[i].name in Kep.Excluded && |NameIndices(con, Kep.RealName(koi[i].name))| == 1)
  {
    var e1, e2, dfs := EarlyNames(early1), EarlyNames(early2), ArchiveNames(raw);
    var vf := VintageFaults(koi, e1, e2, dfs);
    var koiYear := VintageColumn(koi, e1, e2, dfs);
    var res := Kep.ConfirmedResolutions(con, koi);
    var kc := KoiStage(con, koi, early1, early2, raw, conDisc).value;
    assert kc.koiYear == koiYear;
    assert kc.con == ConAfter(conDisc, Discs(con), koiYear, res);
    assert kc.koiDisc == CandAfter(koiYear, Discs(con), koiYear, res);
    forall i | 0 <= i < |koi| ensures Some(koiYear[i]) == VintageOf(koi[i].name, e1, e2, dfs) {
      assert !vf[i].Fault?;
    }
    RangeOkMeansTraced(koi, e1, e2, dfs, koiYear);
    CandAfterBelowCatalog(koiYear, Discs(con), koiYear, res);
    if forall j :: 0 <= j < |con| ==> conDisc[j] <= con[j].disc {
      ConAfterBelowDisc(conDisc, Discs(con), koiYear, res);
    }
    Kep.ConfirmedLoopFails(con, koi);
    Kep.CandidateLoopFails(con, koi);
  }

  /** What a successful TOI part guarantees: TOI years never pass the row's
      `year` and stay equal to it unless the TOI is Confirmed; a confirmed
      year no later than `pl_disc` stays so; every Confirmed TOI matched
      exactly one planet and no Candidate TOI matched any. */
  lemma {:induction false} ToiStageFacts(con: seq<Confirmed>, toi: seq<Toi>, conDisc: seq<int>)
    requires |conDisc| == |con|
    requires ToiStage(con, toi, conDisc).Ok?
    ensures var t := ToiStage(con, toi, conDisc).value;
      forall i :: 0 <= i < |toi| ==> t.cand[i] <= toi[i].year
    ensures var t := ToiStage(con, toi, conDisc).value;
      forall i :: 0 <= i < |toi| && toi[i].disp != ConfirmedLabel ==> t.cand[i] == toi[i].year
    ensures (forall j :: 0 <= j < |con| ==> conDisc[j] <= con[j].disc) ==>
      var t := ToiStage(con, toi, conDisc).value;
      forall j :: 0 <= j < |con| ==> t.con[j] <= con[j].disc
    ensures forall i :: 0 <= i < |toi| && toi[i].disp == ConfirmedLabel ==> |MatchIndices(con, toi[i].pos)| == 1
    ensures forall i :: 0 <= i < |toi| && toi[i].disp == CandidateLabel ==> MatchIndices(con, toi[i].pos) == []
  {
    var res := Tess.ConfirmedResolutions(con, toi);
    var t := ToiStage(con, toi, conDisc).value;
    assert t.con == ConAfter(conDisc, Discs(con), ToiYears(toi), res);
    assert t.cand == CandAfter(ToiYears(toi), Discs(con), ToiYears(toi), res);
    CandAfterBelowCatalog(ToiYears(toi), Discs(con), ToiYears(toi), res);
    if forall j :: 0 <= j < |con| ==> conDisc[j] <= con[j].disc {
      ConAfterBelowDisc(conDisc, Discs(con), ToiYears(toi), res);
    }
    Tess.ConfirmedLoopFails(con, toi);
    Tess.CandidateLoopFails(con, toi);
  }

  /** A successful run: no confirmed planet is dated after its discovery
      paper, no candidate after its own catalog year, every KOI year lies in
      2011-2018, and every catalog row obeyed its match rule, so each
      Confirmed candidate is counted with exactly one planet (or is a known
      exception) and no open candidate duplicates a confirmed planet. */
  lemma {:induction false} SuccessfulRun(con: seq<Confirmed>, koi: seq<Koi>, k2: seq<K2Cand>, toi: seq<Toi>,
                                         early1: seq<string>, early2: seq<string>, raw: seq<seq<string>>)
    requires DiscoveryYears(con, koi, k2, toi, early1, early2, raw).Ok?
    ensures var out := DiscoveryYears(con, koi, k2, toi, early1, early2, raw).value;
      |out.conDisc| == |con| && forall j :: 0 <= j < |con| ==> out.conDisc[j] <= con[j].disc
    ensures var out := DiscoveryYears(con, koi, k2, toi, early1, early2, raw).value;
      |out.k2Disc| == |k2| && forall i :: 0 <= i < |k2| ==> out.k2Disc[i] <= k2[i].year
    ensures var out := DiscoveryYears(con, koi, k2, toi, early1, early2, raw).value;
      |out.koiYear| == |out.koiDisc| == |koi| &&
      forall i :: 0 <= i < |koi| ==> out.koiDisc[i] <= out.koiYear[i] && EarlyYear <= out.koiYear[i] <= LatestYear
    ensures var out := DiscoveryYears(con, koi, k2, toi, early1, early2, raw).value;
      |out.toiDisc| == |toi| && forall i :: 0 <= i < |toi| ==> out.toiDisc[i] <= toi[i].year
    ensures forall i :: 0 <= i < |toi| && toi[i].disp == ConfirmedLabel ==> |MatchIndices(con, toi[i].pos)| == 1
    ensures forall i :: 0 <= i < |toi| && toi[i].disp == CandidateLabel ==> MatchIndices(con, toi[i].pos) == []
    ensures forall i :: 0 <= i < |koi| && koi[i].disp == CandidateLabel ==> MatchIndices(con, koi[i].pos) == []
    ensures forall i :: 0 <= i < |koi| && koi[i].disp == ConfirmedLabel ==>
      |MatchIndices(con, koi[i].pos)| == 1 ||
      (koi[i].name in Kep.Excluded && |NameIndices(con, Kep.RealName(koi[i].name))| == 1)
    ensures forall i :: 0 <= i < |k2| && k2[i].disp == ConfirmedLabel ==>
      |MatchIndices(con, k2[i].pos)| == 1 || k2[i].candName in K2.K2Exclude
    ensures forall i :: 0 <= i < |k2| && k2[i].disp == CandidateLabel ==>
      |MatchIndices(con, k2[i].pos)| == 0 || k2[i].candName in K2.K2Exclude2
  {
    var k := K2Stage(con, k2).value;
    var kc := KoiStage(con, koi, early1, early2, raw, k.con).value;
    K2StageFacts(con, k2);
    KoiStageFacts(con, koi, early1, early2, raw, k.con);
    ToiStageFacts(con, toi, kc.con);
  }

  /** The TESS pass writes last, so a confirmed planet whose last link is TOI
      row i ends with the same year as that TOI: min(TOI year, pl_disc). */
  lemma {:induction false} TessLinkAgrees(con: seq<Confirmed>, koi: seq<Koi>, k2: seq<K2Cand>, toi: seq<Toi>,
                                          early1: seq<string>, early2: seq<string>, raw: seq<seq<string>>, i: nat, j: nat)
    requires DiscoveryYears(con, koi, k2, toi, early1, early2, raw).Ok?
    requires i < |toi| && j < |con|
    requires Tess.ConfirmedResolution(con, toi, i) == Linked(j)
    requires forall k :: i < k < |toi| ==> Tess.ConfirmedResolution(con, toi, k) != Linked(j)
    ensures var out := DiscoveryYears(con, koi, k2, toi, early1, early2, raw).value;
      |out.conDisc| == |con| && |out.toiDisc| == |toi| &&
      out.conDisc[j] == out.toiDisc[i] == Min(toi[i].year, con[j].disc)
  {
    var k := K2Stage(con, k2).value;
    var kc := KoiStage(con, koi, early1, early2, raw, k.con).value;
    var res := Tess.ConfirmedResolutions(con, toi);
    var t := ToiStage(con, toi, kc.con).value;
    assert t.con == ConAfter(kc.con, Discs(con), ToiYears(toi), res);
    assert t.cand == CandAfter(ToiYears(toi), Discs(con), ToiYears(toi), res);
    LastLinkAgrees(kc.con, Discs(con), ToiYears(toi), ToiYears(toi), res, i, j);
  }
}
