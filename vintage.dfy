/** The KOI vintage of scripts/test_data.py:99-138: a KOI's `koi_year` is the
    year of the first KOI catalog that lists it. The two earliest catalogs are
    plain text lists (2011); the archived catalogs come in sorted file-name
    order with the publication years of line 106. Reading the files is not
    modelled: each archived table is given as its `kepoi_name` column. */
module Vintage {
  import opened Common
  import opened Tables
  import opened KoiNames
  import opened Linking

  /** Publication years of the archived KOI tables, in sorted file-name order. */
  const KoiYears: seq<int> := [2013, 2014, 2015, 2015, 2016, 2018]

  /** The year of both pre-archive lists. */
  const EarlyYear: int := 2011

  /** The initial `koi_year` (line 99): what an untraced KOI keeps. */
  const Untraced: int := 1990

  /** The newest catalog year the check of line 136 expects. */
  const LatestYear: int := 2018

  /** The early lists are numpy arrays of dtype '<U12': a value stored into
      them is cut to 12 characters. */
  const NameWidth: nat := 12

  /** `k1[ii] = 'KOI-' + k1[ii]` stored into a '<U12' array. */
  function EarlyName(token: string): (r: string)
    ensures |r| == if |token| + 4 <= NameWidth then |token| + 4 else NameWidth
    ensures r <= "KOI-" + token
    ensures |token| + 4 <= NameWidth ==> r == "KOI-" + token
  {
    var s := "KOI-" + token;
    if |s| <= NameWidth then s else s[..NameWidth]
  }

  /** The in-place loops of lines 110-111 and 114-115. */
  method PrefixEarly(a: array<string>)
    modifies a
    ensures forall i :: 0 <= i < a.Length ==> a[i] == EarlyName(old(a[i]))
  {
    var ii := 0;
    while ii < a.Length
      invariant 0 <= ii <= a.Length
      invariant forall i :: 0 <= i < ii ==> a[i] == EarlyName(old(a[i]))
      invariant forall i :: ii <= i < a.Length ==> a[i] == old(a[i])
    {
      a[ii] := EarlyName(a[ii]);
      ii := ii + 1;
    }
  }

  /** Lines 118-123: each archived table's `kepoi_name` column with the
      `K0+` -> `KOI-` rewrite applied, appended in file order. */
  method LoadArchives(raw: seq<seq<string>>) returns (dfs: seq<seq<string>>)
    ensures |dfs| == |raw|
    ensures forall a :: 0 <= a < |raw| ==> |dfs[a]| == |raw[a]|
    ensures forall a, k :: 0 <= a < |raw| && 0 <= k < |raw[a]| ==> dfs[a][k] == RewriteK0(raw[a][k])
    ensures forall a, k :: 0 <= a < |raw| && 0 <= k < |raw[a]| ==> NoK0(dfs[a][k])
  {
    dfs := [];
    var a := 0;
    while a < |raw|
      invariant 0 <= a <= |raw| && |dfs| == a
      invariant forall b :: 0 <= b < a ==> |dfs[b]| == |raw[b]|
      invariant forall b, k :: 0 <= b < a && 0 <= k < |raw[b]| ==> dfs[b][k] == RewriteK0(raw[b][k])
    {
      var col := raw[a];
      var df := seq(|col|, k requires 0 <= k < |col| => RewriteK0(col[k]));
      dfs := dfs + [df];
      a := a + 1;
    }
  }

  /** The first archived table that lists `name`. */
  function FirstArchive(name: string, dfs: seq<seq<string>>): (r: Option<nat>)
    ensures r.Some? ==> r.value < |dfs| && name in dfs[r.value]
    ensures r.Some? ==> forall a :: 0 <= a < r.value ==> name !in dfs[a]
    ensures r.None? <==> forall a :: 0 <= a < |dfs| ==> name !in dfs[a]
  {
    if |dfs| == 0 then None
    else if name in dfs[0] then Some(0)
    else
      match FirstArchive(name, dfs[1..])
      case None => None
      case Some(a) => Some(a + 1)
  }

  /** The `koi_year` lines 126-134 give one KOI; None when its first archive
      has no entry in `KoiYears`, where `koiyears[ii]` raises IndexError. */
  function VintageOf(name: string, early1: seq<string>, early2: seq<string>, dfs: seq<seq<string>>): Option<int> {
    if name in early1 || name in early2 then Some(EarlyYear)
    else
      match FirstArchive(name, dfs)
      case None => Some(Untraced)
      case Some(a) => if a < |KoiYears| then Some(KoiYears[a]) else None
  }

  /** The inner scan of lines 128-134 for one KOI, stopping at the first hit. */
  method ResolveVintage(ikoi: string, early1: seq<string>, early2: seq<string>, dfs: seq<seq<string>>)
    returns (y: Option<int>)
    ensures y == VintageOf(ikoi, early1, early2, dfs)
  {
    if ikoi in early1 || ikoi in early2 {
      return Some(EarlyYear);
    }
    y := Some(Untraced);
    var ii := 0;
    while ii < |dfs|
      invariant 0 <= ii <= |dfs|
      invariant forall a :: 0 <= a < ii ==> ikoi !in dfs[a]
      invariant y == Some(Untraced)
    {
      if ikoi in dfs[ii] {
        y := if ii < |KoiYears| then Some(KoiYears[ii]) else None;
        break;
      }
      ii := ii + 1;
    }
  }

  /** Row i stops the scan of lines 126-134 exactly when its year cannot be
      looked up. */
  function VintageFaults(koi: seq<Koi>, early1: seq<string>, early2: seq<string>, dfs: seq<seq<string>>): (res: seq<Resolution>)
    ensures |res| == |koi|
    ensures forall i :: 0 <= i < |koi| ==>
      res[i] == if VintageOf(koi[i].name, early1, early2, dfs).None? then Fault(KoiYearIndex(i)) else Unlinked
  {
    seq(|koi|, i requires 0 <= i < |koi| =>
      if VintageOf(koi[i].name, early1, early2, dfs).None? then Fault(KoiYearIndex(i)) else Unlinked)
  }

  /** The `koi_year` column once every row has its year. */
  function VintageColumn(koi: seq<Koi>, early1: seq<string>, early2: seq<string>, dfs: seq<seq<string>>): (ys: seq<int>)
    ensures |ys| == |koi|
    ensures forall i :: 0 <= i < |koi| && VintageOf(koi[i].name, early1, early2, dfs).Some? ==>
      ys[i] == VintageOf(koi[i].name, early1, early2, dfs).value
  {
    seq(|koi|, i requires 0 <= i < |koi| =>
      match VintageOf(koi[i].name, early1, early2, dfs)
      case Some(y) => y
      case None => Untraced)
  }

  /** The `koi_year` column of lines 99 and 126-134, or the IndexError of the
      first row whose year cannot be looked up. */
  method ResolveVintages(koi: seq<Koi>, early1: seq<string>, early2: seq<string>, dfs: seq<seq<string>>)
    returns (r: Result<seq<int>>)
    ensures r.Err? <==> FirstFault(VintageFaults(koi, early1, early2, dfs)).Some?
    ensures r.Err? ==> r.error == KoiYearIndex(FirstFault(VintageFaults(koi, early1, early2, dfs)).value)
    ensures r.Ok? ==> r.value == VintageColumn(koi, early1, early2, dfs)
  {
    ghost var res := VintageFaults(koi, early1, early2, dfs);
    var years := seq(|koi|, i => Untraced);
    var i := 0;
    while i < |koi|
      invariant 0 <= i <= |koi| && |years| == |koi|
      invariant forall k :: 0 <= k < i ==> !res[k].Fault?
      invariant forall k :: 0 <= k < i ==> years[k] == VintageColumn(koi, early1, early2, dfs)[k]
    {
      var y := ResolveVintage(koi[i].name, early1, early2, dfs);
      if y.None? {
        assert res[i] == Fault(KoiYearIndex(i));
        return Err(KoiYearIndex(i));
      }
      years := years[i := y.value];
      i := i + 1;
    }
    return Ok(years);
  }

  /** Line 136: the smallest `koi_year` is exactly 2011 and the largest exactly
      2018 (an empty column has NaN extremes and fails). */
  predicate RangeOk(years: seq<int>) {
    (exists i :: 0 <= i < |years| && years[i] == EarlyYear) &&
    (exists i :: 0 <= i < |years| && years[i] == LatestYear) &&
    forall i :: 0 <= i < |years| ==> EarlyYear <= years[i] <= LatestYear
  }

  /** Every year the resolver gives is one of the catalog years, or the 1990
      a KOI keeps when no catalog lists it. */
  lemma VintageValues(name: string, early1: seq<string>, early2: seq<string>, dfs: seq<seq<string>>)
    ensures var y := VintageOf(name, early1, early2, dfs);
      y.Some? ==> y.value == Untraced || EarlyYear <= y.value <= LatestYear
    ensures VintageOf(name, early1, early2, dfs) == Some(Untraced) <==>
      name !in early1 && name !in early2 && forall a :: 0 <= a < |dfs| ==> name !in dfs[a]
  {
  }

  /** A KOI that no catalog lists keeps 1990, so the check of line 136 fails
      unless every KOI was traced; and passing it bounds every year. */
  lemma {:induction false} RangeOkMeansTraced(koi: seq<Koi>, early1: seq<string>, early2: seq<string>, dfs: seq<seq<string>>, years: seq<int>)
    requires |years| == |koi|
    requires forall i :: 0 <= i < |koi| ==> Some(years[i]) == VintageOf(koi[i].name, early1, early2, dfs)
    requires RangeOk(years)
    ensures |koi| > 0
    ensures forall i :: 0 <= i < |koi| ==>
      koi[i].name in early1 || koi[i].name in early2 || exists a :: 0 <= a < |dfs| && koi[i].name in dfs[a]
  {
    forall i | 0 <= i < |koi|
      ensures koi[i].name in early1 || koi[i].name in early2 || exists a :: 0 <= a < |dfs| && koi[i].name in dfs[a]
    {
      VintageValues(koi[i].name, early1, early2, dfs);
    }
  }

  /** The first archive wins: a KOI first listed in the first of the two 2015
      archives gets 2015 from it, whatever later archives hold. */
  lemma FirstHitWins(name: string, early1: seq<string>, early2: seq<string>, dfs: seq<seq<string>>)
    requires name !in early1 && name !in early2
    requires |dfs| > 2 && name !in dfs[0] && name !in dfs[1] && name in dfs[2]
    ensures FirstArchive(name, dfs) == Some(2)
    ensures VintageOf(name, early1, early2, dfs) == Some(2015)
  {
  }

  /** An early-list KOI is 2011 whatever the archives hold. */
  lemma EarlyListWins(name: string, early1: seq<string>, early2: seq<string>, dfs: seq<seq<string>>)
    requires name in early1 || name in early2
    ensures VintageOf(name, early1, early2, dfs) == Some(EarlyYear)
  {
  }
}
