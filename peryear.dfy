/** The per-year counts behind the discoveries-per-year figures
    (scripts/planets_over_time.py:48-128). For each discovery method it
    counts, year by year, the confirmed planets by the year of their paper
    (`pl_disc`) and, on the second figure, by the reconciled discovery year
    (`year_disc`) with the open transit candidates added, together with the
    running sums of both. The dictionaries keyed by method are modelled as
    sequences in the order of `methods`; the current year is a parameter. */
module PerYear {
  import opened Common
  import opened Tables
  import opened Reconcile

  /** The plotting order and legend labels (line 22). */
  const Methods: seq<string> := ["Other", "Radial Velocity", "Transit"]

  const OtherMethod: string := "Other"
  const TransitMethod: string := "Transit"

  /** Lines 64-67: 'Other' selects every planet whose method is not one of
      the listed labels; the other two select their own method. */
  predicate Selected(m: string, discMethod: string) {
    if m == OtherMethod then discMethod !in Methods else discMethod == m
  }

  /** `dfcon['pl_disc'].min()`. */
  function MinDisc(con: seq<Confirmed>): (m: int)
    requires |con| > 0
    ensures exists j :: 0 <= j < |con| && con[j].disc == m
    ensures forall j :: 0 <= j < |con| ==> m <= con[j].disc
  {
    if |con| == 1 then con[0].disc
    else
      var rest := MinDisc(con[1..]);
      assert forall j :: 1 <= j < |con| ==> con[j] == con[1..][j - 1];
      if con[0].disc <= rest then con[0].disc else rest
  }

  /** `range(first, now + 1)`. */
  function YearRange(first: int, now: int): (ys: seq<int>)
    requires first <= now
    ensures |ys| == now - first + 1
    ensures forall k :: 0 <= k < |ys| ==> ys[k] == first + k
  {
    seq(now - first + 1, k requires 0 <= k < now - first + 1 => first + k)
  }

  /** The tables as `get_discovery_year` returns them: each row with its
      reconciled columns. */
  predicate Sized(con: seq<Confirmed>, koi: seq<Koi>, k2: seq<K2Cand>, toi: seq<Toi>, out: Reconciled) {
    |out.conDisc| == |con| && |out.koiDisc| == |koi| && |out.k2Disc| == |k2| && |out.toiDisc| == |toi|
  }

  /** Line 68: `good.sum()`. */
  function GoodCount(con: seq<Confirmed>, m: string): nat {
    CountBelow(|con|, (j: nat) => j < |con| && Selected(m, con[j].discMethod))
  }

  /** Line 76: selected planets whose paper came out in year y. */
  function ConCount(con: seq<Confirmed>, m: string, y: int): nat {
    CountBelow(|con|, (j: nat) => j < |con| && Selected(m, con[j].discMethod) && con[j].disc == y)
  }

  /** Line 81: selected planets whose reconciled year is y. */
  function YearDiscCount(con: seq<Confirmed>, conDisc: seq<int>, m: string, y: int): nat
    requires |conDisc| == |con|
  {
    CountBelow(|con|, (j: nat) => j < |con| && Selected(m, con[j].discMethod) && conDisc[j] == y)
  }

  /** Line 84: Candidate TOIs discovered in year y. */
  function ToiCandidates(toi: seq<Toi>, toiDisc: seq<int>, y: int): nat
    requires |toiDisc| == |toi|
  {
    CountBelow(|toi|, (i: nat) => i < |toi| && toi[i].disp == CandidateLabel && toiDisc[i] == y)
  }

  /** Lines 86-87: Candidate K2 rows of the latest revision discovered in year y. */
  function K2Candidates(k2: seq<K2Cand>, k2Disc: seq<int>, y: int): nat
    requires |k2Disc| == |k2|
  {
    CountBelow(|k2|, (i: nat) => i < |k2| && k2[i].disp == CandidateLabel && k2[i].recent && k2Disc[i] == y)
  }

  /** Line 90: Candidate KOIs discovered in year y. */
  function KoiCandidates(koi: seq<Koi>, koiDisc: seq<int>, y: int): nat
    requires |koiDisc| == |koi|
  {
    CountBelow(|koi|, (i: nat) => i < |koi| && koi[i].disp == CandidateLabel && koiDisc[i] == y)
  }

  /** Lines 81-90: selected planets discovered in year y, plus, for
      'Transit' only, the open candidates of the three catalogs. */
  function PcCount(con: seq<Confirmed>, koi: seq<Koi>, k2: seq<K2Cand>, toi: seq<Toi>, out: Reconciled, m: string, y: int): nat
    requires Sized(con, koi, k2, toi, out)
  {
    YearDiscCount(con, out.conDisc, m, y) +
    if m == TransitMethod then
      ToiCandidates(toi, out.toiDisc, y) + K2Candidates(k2, out.k2Disc, y) + KoiCandidates(koi, out.koiDisc, y)
    else 0
  }

  /** Lines 68 and 95-96: the legend total, with every open candidate
      (whatever its year) added for 'Transit'. */
  function NTot(con: seq<Confirmed>, koi: seq<Koi>, k2: seq<K2Cand>, toi: seq<Toi>, m: string): nat {
    GoodCount(con, m) +
    if m == TransitMethod then
      CountBelow(|toi|, (i: nat) => i < |toi| && toi[i].disp == CandidateLabel) +
      CountBelow(|k2|, (i: nat) => i < |k2| && k2[i].disp == CandidateLabel && k2[i].recent) +
      CountBelow(|koi|, (i: nat) => i < |koi| && koi[i].disp == CandidateLabel)
    else 0
  }

  /** The running sums a list ends with once its leading 0 is popped
      (lines 72, 78, 98). */
  function Cumulative(s: seq<nat>): (c: seq<nat>)
    ensures |c| == |s|
  {
    seq(|s|, k requires 0 <= k < |s| => Sum(s, k + 1))
  }

  /** `np.array(rows).sum(axis=0)` for rows of length n (lines 120-128). */
  function ColumnSums(rows: seq<seq<nat>>, n: nat): (c: seq<nat>)
    requires forall r :: 0 <= r < |rows| ==> |rows[r]| == n
    ensures |c| == n
  {
    if |rows| == 0 then seq(n, k => 0)
    else
      var front := ColumnSums(rows[..|rows| - 1], n);
      seq(n, k requires 0 <= k < n => front[k] + rows[|rows| - 1][k])
  }

  /** One method's per-year counts by `pl_disc` (line 76). */
  function ConRow(con: seq<Confirmed>, m: string, years: seq<int>): (row: seq<nat>)
    ensures |row| == |years|
  {
    Tally(years, y => ConCount(con, m, y))
  }

  /** One method's per-year counts by `year_disc` (lines 81-90). */
  function PcRow(con: seq<Confirmed>, koi: seq<Koi>, k2: seq<K2Cand>, toi: seq<Toi>, out: Reconciled, m: string, years: seq<int>): (row: seq<nat>)
    requires Sized(con, koi, k2, toi, out)
    ensures |row| == |years|
  {
    Tally(years, y => PcCount(con, koi, k2, toi, out, m, y))
  }

  /** The counts `f(y)` for every year, as a list. */
  function Tally(years: seq<int>, f: int -> nat): (row: seq<nat>)
    ensures |row| == |years|
  {
    seq(|years|, k requires 0 <= k < |years| => f(years[k]))
  }

  /** The year loop of lines 75-93 for one method, then the pops of lines
      98-99: `con` and `pc` give the two counts of a year; the result is the
      two count lists and their running sums. */
  method CountYears(years: seq<int>, con: int -> nat, pc: int -> nat)
    returns (conll: seq<nat>, conisum: seq<nat>, pcll: seq<nat>, pcisum: seq<nat>)
    ensures conll == Tally(years, con) && conisum == Cumulative(conll)
    ensures pcll == Tally(years, pc) && pcisum == Cumulative(pcll)
  {
    conll, conisum, pcll, pcisum := [], [0], [], [0];
    var k := 0;
    while k < |years|
      invariant 0 <= k <= |years|
      invariant conll == Tally(years, con)[..k] && pcll == Tally(years, pc)[..k]
      invariant |conisum| == |pcisum| == k + 1
      invariant forall l :: 0 <= l <= k ==> conisum[l] == Sum(conll, l) && pcisum[l] == Sum(pcll, l)
    {
      var iyear := years[k];
      var ct := con(iyear);
      RunningSumStep(conll, conisum, ct);
      TallyStep(years, con, k);
      conll := conll + [ct];
      conisum := conisum + [conisum[|conisum| - 1] + ct];
      var pcct := pc(iyear);
      RunningSumStep(pcll, pcisum, pcct);
      TallyStep(years, pc, k);
      pcll := pcll + [pcct];
      pcisum := pcisum + [pcisum[|pcisum| - 1] + pcct];
      k := k + 1;
    }
    assert conll == Tally(years, con);
    assert pcll == Tally(years, pc);
    conisum := conisum[1..];
    pcisum := pcisum[1..];
  }

  /** Appending a count and its running sum keeps the running sums right. */
  lemma RunningSumStep(ll: seq<nat>, isum: seq<nat>, ct: nat)
    requires |isum| == |ll| + 1
    requires forall l :: 0 <= l <= |ll| ==> isum[l] == Sum(ll, l)
    ensures var ll', isum' := ll + [ct], isum + [isum[|isum| - 1] + ct];
      |isum'| == |ll'| + 1 && forall l :: 0 <= l <= |ll'| ==> isum'[l] == Sum(ll', l)
  {
    var ll' := ll + [ct];
    SumPrefix(ll', |ll|);
    assert ll'[..|ll|] == ll;
  }

  /** One more year of the tally. */
  lemma TallyStep(years: seq<int>, f: int -> nat, k: nat)
    requires k < |years|
    ensures Tally(years, f)[..k + 1] == Tally(years, f)[..k] + [f(years[k])]
  {
  }

  /** Lines 68 and 95-96 for one method. */
  method LegendTotal(con: seq<Confirmed>, koi: seq<Koi>, k2: seq<K2Cand>, toi: seq<Toi>, imeth: string) returns (ntot: nat)
    ensures ntot == NTot(con, koi, k2, toi, imeth)
    ensures ntot >= GoodCount(con, imeth)
  {
    ntot := GoodCount(con, imeth);
    if imeth == TransitMethod {
      ntot := ntot +
        CountBelow(|toi|, (i: nat) => i < |toi| && toi[i].disp == CandidateLabel) +
        CountBelow(|k2|, (i: nat) => i < |k2| && k2[i].disp == CandidateLabel && k2[i].recent) +
        CountBelow(|koi|, (i: nat) => i < |koi| && koi[i].disp == CandidateLabel);
    }
  }

  /** The counting block: for each method in order, the per-year counts by
      `pl_disc` (`conll`), their running sums (`conisum`), the per-year
      counts by `year_disc` with candidates (`pcll`), their running sums
      (`pcisum`) and the legend total (`ntot`); then the totals over methods. */
  method PerYearCounts(con: seq<Confirmed>, koi: seq<Koi>, k2: seq<K2Cand>, toi: seq<Toi>, out: Reconciled, now: int)
    returns (conll: seq<seq<nat>>, conisum: seq<seq<nat>>, pcll: seq<seq<nat>>, pcisum: seq<seq<nat>>, ntot: seq<nat>,
             contots: seq<nat>, concumtots: seq<nat>, pctots: seq<nat>, pccumtots: seq<nat>)
    requires Sized(con, koi, k2, toi, out)
    requires |con| > 0 && MinDisc(con) <= now
    ensures |conll| == |conisum| == |pcll| == |pcisum| == |ntot| == |Methods|
    ensures var years := YearRange(MinDisc(con), now);
      forall ii :: 0 <= ii < |Methods| ==>
        conll[ii] == ConRow(con, Methods[ii], years) && conisum[ii] == Cumulative(conll[ii]) &&
        pcll[ii] == PcRow(con, koi, k2, toi, out, Methods[ii], years) && pcisum[ii] == Cumulative(pcll[ii]) &&
        ntot[ii] == NTot(con, koi, k2, toi, Methods[ii])
    ensures var n := now - MinDisc(con) + 1;
      (forall ii :: 0 <= ii < |Methods| ==> |conll[ii]| == |conisum[ii]| == |pcll[ii]| == |pcisum[ii]| == n) &&
      contots == ColumnSums(conll, n) && concumtots == ColumnSums(conisum, n) &&
      pctots == ColumnSums(pcll, n) && pccumtots == ColumnSums(pcisum, n)
  {
    var years := YearRange(MinDisc(con), now);
    conll, conisum, pcll, pcisum, ntot := [], [], [], [], [];
    var ii := 0;
    while ii < |Methods|
      invariant 0 <= ii <= |Methods|
      invariant |conll| == |conisum| == |pcll| == |pcisum| == |ntot| == ii
      invariant forall a :: 0 <= a < ii ==>
        conll[a] == ConRow(con, Methods[a], years) && conisum[a] == Cumulative(conll[a]) &&
        pcll[a] == PcRow(con, koi, k2, toi, out, Methods[a], years) && pcisum[a] == Cumulative(pcll[a]) &&
        ntot[a] == NTot(con, koi, k2, toi, Methods[a])
    {
      var imeth := Methods[ii];
      var cl, ci, pl, pi := CountYears(years, y => ConCount(con, imeth, y), y => PcCount(con, koi, k2, toi, out, imeth, y));
      assert cl == ConRow(con, imeth, years);
      assert pl == PcRow(con, koi, k2, toi, out, imeth, years);
      var total := LegendTotal(con, koi, k2, toi, imeth);
      conll, conisum, pcll, pcisum, ntot := conll + [cl], conisum + [ci], pcll + [pl], pcisum + [pi], ntot + [total];
      ii := ii + 1;
    }
    var n := |years|;
    contots, concumtots := ColumnSums(conll, n), ColumnSums(conisum, n);
    pctots, pccumtots := ColumnSums(pcll, n), ColumnSums(pcisum, n);
  }

  /** Appending to a list does not change the sums of its earlier prefixes. */
  lemma {:induction false} SumPrefix(s: seq<nat>, k: nat)
    requires k < |s|
    ensures forall l :: 0 <= l <= k ==> Sum(s, l) == Sum(s[..k], l)
  {
    forall l | 0 <= l <= k ensures Sum(s, l) == Sum(s[..k], l) {
      SumPrefixAt(s, k, l);
    }
  }

  lemma {:induction false} SumPrefixAt(s: seq<nat>, k: nat, l: nat)
    requires l <= k <= |s|
    ensures Sum(s, l) == Sum(s[..k], l)
  {
    if l > 0 {
      SumPrefixAt(s, k, l - 1);
    }
  }

  /** A running sum never decreases from one year to the next. */
  lemma {:induction false} CumulativeGrows(s: seq<nat>, k: nat, l: nat)
    requires k <= l < |s|
    ensures Cumulative(s)[k] <= Cumulative(s)[l]
    ensures Cumulative(s)[l] - Cumulative(s)[k] == Sum(s, l + 1) - Sum(s, k + 1)
  {
    SumMonotone(s, k + 1, l + 1);
  }

  /** The three selections never overlap; every method label except the
      literal 'Other' falls in exactly one of them, and a planet whose
      method is literally 'Other' is counted under none. */
  lemma SelectionsPartition(d: string)
    ensures !(Selected(OtherMethod, d) && Selected("Radial Velocity", d))
    ensures !(Selected(OtherMethod, d) && Selected(TransitMethod, d))
    ensures !(Selected("Radial Velocity", d) && Selected(TransitMethod, d))
    ensures d != OtherMethod <==> Selected(OtherMethod, d) || Selected("Radial Velocity", d) || Selected(TransitMethod, d)
  {
  }

  /** Per year, the three methods' counts add up to all planets of that
      year except those whose method is literally 'Other'. */
  lemma {:induction false} YearCountsAddUp(con: seq<Confirmed>, y: int)
    ensures ConCount(con, OtherMethod, y) + ConCount(con, "Radial Velocity", y) + ConCount(con, TransitMethod, y) ==
      CountBelow(|con|, (j: nat) => j < |con| && con[j].discMethod != OtherMethod && con[j].disc == y)
  {
    var n := |con|;
    var o := (j: nat) => j < |con| && Selected(OtherMethod, con[j].discMethod) && con[j].disc == y;
    var rv := (j: nat) => j < |con| && Selected("Radial Velocity", con[j].discMethod) && con[j].disc == y;
    var tr := (j: nat) => j < |con| && Selected(TransitMethod, con[j].discMethod) && con[j].disc == y;
    var ort := (j: nat) => j < |con| && (Selected(OtherMethod, con[j].discMethod) || Selected("Radial Velocity", con[j].discMethod)) && con[j].disc == y;
    var all := (j: nat) => j < |con| && con[j].discMethod != OtherMethod && con[j].disc == y;
    forall j: nat | j < n ensures !(o(j) && rv(j)) && !(ort(j) && tr(j)) && (all(j) <==> ort(j) || tr(j)) {
      SelectionsPartition(con[j].discMethod);
    }
    CountBelowSplit(n, o, rv, ort);
    CountBelowSplit(n, ort, tr, all);
  }

  /** Summing a method's per-year counts over the first n years counts its
      planets whose paper year falls in those years. */
  lemma {:induction false} CountsSumToRange(con: seq<Confirmed>, m: string, first: int, n: nat, row: seq<nat>)
    requires n <= |row|
    requires forall k :: 0 <= k < |row| ==> row[k] == ConCount(con, m, first + k)
    ensures Sum(row, n) ==
      CountBelow(|con|, (j: nat) => j < |con| && Selected(m, con[j].discMethod) && first <= con[j].disc < first + n)
  {
    var below := (j: nat) => j < |con| && Selected(m, con[j].discMethod) && first <= con[j].disc < first + n;
    if n == 0 {
      CountBelowSame(|con|, below, (j: nat) => false);
      CountBelowNone(|con|);
    } else {
      CountsSumToRange(con, m, first, n - 1, row);
      var earlier := (j: nat) => j < |con| && Selected(m, con[j].discMethod) && first <= con[j].disc < first + n - 1;
      var last := (j: nat) => j < |con| && Selected(m, con[j].discMethod) && con[j].disc == first + n - 1;
      CountBelowSplit(|con|, earlier, last, below);
    }
  }

  /** Nothing satisfies `false`. */
  lemma {:induction false} CountBelowNone(n: nat)
    ensures CountBelow(n, (j: nat) => false) == 0
  {
    if n > 0 {
      CountBelowNone(n - 1);
    }
  }

  /** When no paper is dated after the current year, the last running sum
      of a method is its legend count `good.sum()`. */
  lemma {:induction false} CumulativeReachesTotal(con: seq<Confirmed>, m: string, now: int)
    requires |con| > 0 && MinDisc(con) <= now
    requires forall j :: 0 <= j < |con| ==> con[j].disc <= now
    ensures var years := YearRange(MinDisc(con), now);
      Cumulative(ConRow(con, m, years))[|years| - 1] == GoodCount(con, m)
  {
    var first := MinDisc(con);
    var years := YearRange(first, now);
    var row := ConRow(con, m, years);
    CountsSumToRange(con, m, first, |years|, row);
    CountBelowSame(|con|,
      (j: nat) => j < |con| && Selected(m, con[j].discMethod) && first <= con[j].disc < first + |years|,
      (j: nat) => j < |con| && Selected(m, con[j].discMethod));
  }

  /** `Sum` distributes over adding two lists position by position. */
  lemma {:induction false} SumAdd(a: seq<nat>, b: seq<nat>, c: seq<nat>, n: nat)
    requires n <= |a| == |b| == |c|
    requires forall k :: 0 <= k < |c| ==> c[k] == a[k] + b[k]
    ensures Sum(c, n) == Sum(a, n) + Sum(b, n)
  {
    if n > 0 {
      SumAdd(a, b, c, n - 1);
    }
  }

  /** The cumulative total of line 121 is the running sum of the per-year
      total of line 120: summing over methods and summing over years commute. */
  lemma {:induction false} TotalsCumulate(rows: seq<seq<nat>>, cumul: seq<seq<nat>>, n: nat)
    requires |cumul| == |rows|
    requires forall r :: 0 <= r < |rows| ==> |rows[r]| == n && |cumul[r]| == n && cumul[r] == Cumulative(rows[r])
    ensures ColumnSums(cumul, n) == Cumulative(ColumnSums(rows, n))
  {
    if |rows| == 0 {
      var z := ColumnSums(rows, n);
      forall k | 0 <= k < n ensures Cumulative(z)[k] == 0 {
        SumZero(z, k + 1);
      }
    } else {
      var m := |rows| - 1;
      TotalsCumulate(rows[..m], cumul[..m], n);
      var front := ColumnSums(rows[..m], n);
      var all := ColumnSums(rows, n);
      forall k | 0 <= k < n ensures ColumnSums(cumul, n)[k] == Cumulative(all)[k] {
        SumAdd(front, rows[m], all, k + 1);
      }
    }
  }

  lemma {:induction false} SumZero(s: seq<nat>, n: nat)
    requires n <= |s| && forall k :: 0 <= k < |s| ==> s[k] == 0
    ensures Sum(s, n) == 0
  {
    if n > 0 {
      SumZero(s, n - 1);
    }
  }

  /** Only 'Transit' counts candidates: the other methods count confirmed
      planets alone, by their reconciled year. */
  lemma CandidatesOnlyForTransit(con: seq<Confirmed>, koi: seq<Koi>, k2: seq<K2Cand>, toi: seq<Toi>, out: Reconciled, m: string, y: int)
    requires Sized(con, koi, k2, toi, out) && m != TransitMethod
    ensures PcCount(con, koi, k2, toi, out, m, y) == YearDiscCount(con, out.conDisc, m, y)
    ensures NTot(con, koi, k2, toi, m) == GoodCount(con, m)
  {
  }

  /** The rows `sel` picks whose year `yr` lies in [lo, hi). */
  function InYears(sel: nat -> bool, yr: nat -> int, lo: int, hi: int): nat -> bool {
    (i: nat) => sel(i) && lo <= yr(i) < hi
  }

  /** Summing one table's per-year counts over the first n years counts
      its selected rows dated in those years. */
  lemma {:induction false} SumOfYearCounts(size: nat, sel: nat -> bool, yr: nat -> int, first: int, n: nat, row: seq<nat>)
    requires n <= |row|
    requires forall k :: 0 <= k < n ==> row[k] == CountBelow(size, InYears(sel, yr, first + k, first + k + 1))
    ensures Sum(row, n) == CountBelow(size, InYears(sel, yr, first, first + n))
  {
    if n == 0 {
      CountBelowSame(size, InYears(sel, yr, first, first), (i: nat) => false);
      CountBelowNone(size);
    } else {
      SumOfYearCounts(size, sel, yr, first, n - 1, row);
      CountBelowSplit(size, InYears(sel, yr, first, first + n - 1), InYears(sel, yr, first + n - 1, first + n),
        InYears(sel, yr, first, first + n));
    }
  }

  /** The selected planets, counted by reconciled year over n years that
      cover all their years, add up to `good.sum()`. */
  lemma {:induction false} PlanetsReachTotal(con: seq<Confirmed>, conDisc: seq<int>, m: string, first: int, n: nat, row: seq<nat>)
    requires |conDisc| == |con| && n <= |row|
    requires forall k :: 0 <= k < n ==> row[k] == YearDiscCount(con, conDisc, m, first + k)
    requires forall j :: 0 <= j < |con| && Selected(m, con[j].discMethod) ==> first <= conDisc[j] < first + n
    ensures Sum(row, n) == GoodCount(con, m)
  {
    var sel := (j: nat) => j < |con| && Selected(m, con[j].discMethod);
    var yr := (j: nat) => if j < |con| then conDisc[j] else first;
    forall k | 0 <= k < n ensures row[k] == CountBelow(|con|, InYears(sel, yr, first + k, first + k + 1)) {
      CountBelowSame(|con|, (j: nat) => j < |con| && Selected(m, con[j].discMethod) && conDisc[j] == first + k,
        InYears(sel, yr, first + k, first + k + 1));
    }
    SumOfYearCounts(|con|, sel, yr, first, n, row);
    CountBelowSame(|con|, InYears(sel, yr, first, first + n), (j: nat) => j < |con| && Selected(m, con[j].discMethod));
  }

  /** The open TOIs, counted by year over n years that cover all their
      years, add up to `toican.sum()`. */
  lemma {:induction false} ToiCandidatesReachTotal(toi: seq<Toi>, toiDisc: seq<int>, first: int, n: nat, row: seq<nat>)
    requires |toiDisc| == |toi| && n <= |row|
    requires forall k :: 0 <= k < n ==> row[k] == ToiCandidates(toi, toiDisc, first + k)
    requires forall i :: 0 <= i < |toi| && toi[i].disp == CandidateLabel ==> first <= toiDisc[i] < first + n
    ensures Sum(row, n) == CountBelow(|toi|, (i: nat) => i < |toi| && toi[i].disp == CandidateLabel)
  {
    var sel := (i: nat) => i < |toi| && toi[i].disp == CandidateLabel;
    var yr := (i: nat) => if i < |toi| then toiDisc[i] else first;
    forall k | 0 <= k < n ensures row[k] == CountBelow(|toi|, InYears(sel, yr, first + k, first + k + 1)) {
      CountBelowSame(|toi|, (i: nat) => i < |toi| && toi[i].disp == CandidateLabel && toiDisc[i] == first + k,
        InYears(sel, yr, first + k, first + k + 1));
    }
    SumOfYearCounts(|toi|, sel, yr, first, n, row);
    CountBelowSame(|toi|, InYears(sel, yr, first, first + n), (i: nat) => i < |toi| && toi[i].disp == CandidateLabel);
  }

  /** The open K2 candidates of the latest revision, counted by year over n
      years that cover all their years, add up to `k2can.sum()`. */
  lemma {:induction false} K2CandidatesReachTotal(k2: seq<K2Cand>, k2Disc: seq<int>, first: int, n: nat, row: seq<nat>)
    requires |k2Disc| == |k2| && n <= |row|
    requires forall k :: 0 <= k < n ==> row[k] == K2Candidates(k2, k2Disc, first + k)
    requires forall i :: 0 <= i < |k2| && k2[i].disp == CandidateLabel && k2[i].recent ==> first <= k2Disc[i] < first + n
    ensures Sum(row, n) == CountBelow(|k2|, (i: nat) => i < |k2| && k2[i].disp == CandidateLabel && k2[i].recent)
  {
    var sel := (i: nat) => i < |k2| && k2[i].disp == CandidateLabel && k2[i].recent;
    var yr := (i: nat) => if i < |k2| then k2Disc[i] else first;
    forall k | 0 <= k < n ensures row[k] == CountBelow(|k2|, InYears(sel, yr, first + k, first + k + 1)) {
      CountBelowSame(|k2|, (i: nat) => i < |k2| && k2[i].disp == CandidateLabel && k2[i].recent && k2Disc[i] == first + k,
        InYears(sel, yr, first + k, first + k + 1));
    }
    SumOfYearCounts(|k2|, sel, yr, first, n, row);
    CountBelowSame(|k2|, InYears(sel, yr, first, first + n), (i: nat) => i < |k2| && k2[i].disp == CandidateLabel && k2[i].recent);
  }

  /** The open KOIs, counted by year over n years that cover all their
      years, add up to `koican.sum()`. */
  lemma {:induction false} KoiCandidatesReachTotal(koi: seq<Koi>, koiDisc: seq<int>, first: int, n: nat, row: seq<nat>)
    requires |koiDisc| == |koi| && n <= |row|
    requires forall k :: 0 <= k < n ==> row[k] == KoiCandidates(koi, koiDisc, first + k)
    requires forall i :: 0 <= i < |koi| && koi[i].disp == CandidateLabel ==> first <= koiDisc[i] < first + n
    ensures Sum(row, n) == CountBelow(|koi|, (i: nat) => i < |koi| && koi[i].disp == CandidateLabel)
  {
    var sel := (i: nat) => i < |koi| && koi[i].disp == CandidateLabel;
    var yr := (i: nat) => if i < |koi| then koiDisc[i] else first;
    forall k | 0 <= k < n ensures row[k] == CountBelow(|koi|, InYears(sel, yr, first + k, first + k + 1)) {
      CountBelowSame(|koi|, (i: nat) => i < |koi| && koi[i].disp == CandidateLabel && koiDisc[i] == first + k,
        InYears(sel, yr, first + k, first + k + 1));
    }
    SumOfYearCounts(|koi|, sel, yr, first, n, row);
    CountBelowSame(|koi|, InYears(sel, yr, first, first + n), (i: nat) => i < |koi| && koi[i].disp == CandidateLabel);
  }

  /** When every selected planet's reconciled year and, for 'Transit', every
      counted open candidate's year lies between the first paper year and
      the current year, the last running sum of the second figure is the
      legend total `ntot` of lines 68 and 95-96: the legend counts exactly
      the bars it labels. */
  lemma {:induction false} PcReachesTotal(con: seq<Confirmed>, koi: seq<Koi>, k2: seq<K2Cand>, toi: seq<Toi>, out: Reconciled,
                                          m: string, now: int)
    requires Sized(con, koi, k2, toi, out)
    requires |con| > 0 && MinDisc(con) <= now
    requires forall j :: 0 <= j < |con| && Selected(m, con[j].discMethod) ==> MinDisc(con) <= out.conDisc[j] <= now
    requires m == TransitMethod ==>
      (forall i :: 0 <= i < |toi| && toi[i].disp == CandidateLabel ==> MinDisc(con) <= out.toiDisc[i] <= now) &&
      (forall i :: 0 <= i < |k2| && k2[i].disp == CandidateLabel && k2[i].recent ==> MinDisc(con) <= out.k2Disc[i] <= now) &&
      (forall i :: 0 <= i < |koi| && koi[i].disp == CandidateLabel ==> MinDisc(con) <= out.koiDisc[i] <= now)
    ensures var years := YearRange(MinDisc(con), now);
      Cumulative(PcRow(con, koi, k2, toi, out, m, years))[|years| - 1] == NTot(con, koi, k2, toi, m)
  {
    PcRowTotal(con, koi, k2, toi, out, m, MinDisc(con), now);
  }

  /** `PcReachesTotal` for any first year. */
  lemma {:induction false} PcRowTotal(con: seq<Confirmed>, koi: seq<Koi>, k2: seq<K2Cand>, toi: seq<Toi>, out: Reconciled,
                                      m: string, first: int, now: int)
    requires Sized(con, koi, k2, toi, out) && first <= now
    requires forall j :: 0 <= j < |con| && Selected(m, con[j].discMethod) ==> first <= out.conDisc[j] <= now
    requires m == TransitMethod ==>
      (forall i :: 0 <= i < |toi| && toi[i].disp == CandidateLabel ==> first <= out.toiDisc[i] <= now) &&
      (forall i :: 0 <= i < |k2| && k2[i].disp == CandidateLabel && k2[i].recent ==> first <= out.k2Disc[i] <= now) &&
      (forall i :: 0 <= i < |koi| && koi[i].disp == CandidateLabel ==> first <= out.koiDisc[i] <= now)
    ensures var years := YearRange(first, now);
      Cumulative(PcRow(con, koi, k2, toi, out, m, years))[|years| - 1] == NTot(con, koi, k2, toi, m)
  {
    var years := YearRange(first, now);
    var n := |years|;
    var row := PcRow(con, koi, k2, toi, out, m, years);
    var planets := Tally(years, y => YearDiscCount(con, out.conDisc, m, y));
    PlanetsReachTotal(con, out.conDisc, m, first, n, planets);
    if m != TransitMethod {
      assert row == planets;
    } else {
      TransitRowTotal(con, koi, k2, toi, out, first, now, planets);
    }
  }

  /** The 'Transit' case of `PcRowTotal`: the candidates' counts add their
      three totals. */
  lemma {:induction false} TransitRowTotal(con: seq<Confirmed>, koi: seq<Koi>, k2: seq<K2Cand>, toi: seq<Toi>, out: Reconciled,
                                           first: int, now: int, planets: seq<nat>)
    requires Sized(con, koi, k2, toi, out) && first <= now
    requires planets == Tally(YearRange(first, now), y => YearDiscCount(con, out.conDisc, TransitMethod, y))
    requires forall i :: 0 <= i < |toi| && toi[i].disp == CandidateLabel ==> first <= out.toiDisc[i] <= now
    requires forall i :: 0 <= i < |k2| && k2[i].disp == CandidateLabel && k2[i].recent ==> first <= out.k2Disc[i] <= now
    requires forall i :: 0 <= i < |koi| && koi[i].disp == CandidateLabel ==> first <= out.koiDisc[i] <= now
    ensures var n := now - first + 1;
      Sum(PcRow(con, koi, k2, toi, out, TransitMethod, YearRange(first, now)), n) ==
      Sum(planets, n) +
      CountBelow(|toi|, (i: nat) => i < |toi| && toi[i].disp == CandidateLabel) +
      CountBelow(|k2|, (i: nat) => i < |k2| && k2[i].disp == CandidateLabel && k2[i].recent) +
      CountBelow(|koi|, (i: nat) => i < |koi| && koi[i].disp == CandidateLabel)
  {
    var years := YearRange(first, now);
    var n := |years|;
    var row := PcRow(con, koi, k2, toi, out, TransitMethod, years);
    var t := Tally(years, y => ToiCandidates(toi, out.toiDisc, y));
    var c := Tally(years, y => K2Candidates(k2, out.k2Disc, y));
    var o := Tally(years, y => KoiCandidates(koi, out.koiDisc, y));
    ToiCandidatesReachTotal(toi, out.toiDisc, first, n, t);
    K2CandidatesReachTotal(k2, out.k2Disc, first, n, c);
    KoiCandidatesReachTotal(koi, out.koiDisc, first, n, o);
    forall k | 0 <= k < n ensures row[k] == planets[k] + t[k] + c[k] + o[k] {
      assert row[k] == PcCount(con, koi, k2, toi, out, TransitMethod, years[k]);
    }
    SumOfFour(planets, t, c, o, row, n);
  }

  /** Summing four lists position by position and then over years is the
      sum of their four sums. */
  lemma {:induction false} SumOfFour(a: seq<nat>, b: seq<nat>, c: seq<nat>, d: seq<nat>, all: seq<nat>, n: nat)
    requires n == |a| == |b| == |c| == |d| == |all|
    requires forall k :: 0 <= k < n ==> all[k] == a[k] + b[k] + c[k] + d[k]
    ensures Sum(all, n) == Sum(a, n) + Sum(b, n) + Sum(c, n) + Sum(d, n)
  {
    var ab := seq(n, k requires 0 <= k < n => a[k] + b[k]);
    var abc := seq(n, k requires 0 <= k < n => ab[k] + c[k]);
    SumAdd(a, b, ab, n);
    SumAdd(ab, c, abc, n);
    SumAdd(abc, d, all, n);
  }
}
