# Discovery-year reconciliation of the exoplanet catalogs

This project models how the exoplots scripts decide when each planet and planet candidate was
discovered, and how they then count discoveries per year.

The confirmed-planet table dates a planet by the year of its paper (`pl_disc`). Many planets,
however, were first listed years earlier as Kepler (KOI), K2 or TESS (TOI) candidates.
`get_discovery_year` in `scripts/test_data.py` links every confirmed candidate to its planet and
gives both rows the earlier of the two years. It works by position: ra, dec and orbital period must
each differ by strictly less than 1/60. For KOIs, the year a candidate brings is its vintage: the
year of the first KOI catalog that lists it. Along the way the function asserts that:

- every Confirmed candidate matches exactly one planet;
- no open Candidate matches any planet;
- every KOI can be traced to a catalog;

except for hand-curated exception lists. `load_data` in `utils.py` prepares the four tables:

- it title-cases the dispositions;
- it rewrites KOI names from the archive form `K00142.01` to `KOI-142.01`;
- it fills missing TOI dispositions;
- it sets the facilities and builds the links.

`scripts/planets_over_time.py` counts the planets per discovery method and year, together with the
running sums, using the reconciled years.

The Dafny modules follow that structure:

- `Common`: the vectorised table queries.
  - `Where` for `np.where`.
  - `GroupMin` for a masked `.min()`.
  - `CountBelow` for `mask.sum()`.
- `Tables`: the row types and the typed failures. Each `assert` of `get_discovery_year` is one
  `Failure` case.
- `Matching`: the positional match.
- `KoiNames`: the `K0+` → `KOI-` rewrite.
- `Linking`: the loop that `get_discovery_year` repeats for every catalog.
  - Each row resolves to `Linked(j)`, `Unlinked` or a `Fault`.
  - `LinkPass` is the in-place loop.
  - It is proved against the column functions `ConAfter` and `CandAfter`.
- `K2Reconcile`, `Vintage`, `KoiReconcile` and `ToiReconcile`: the three catalogs.
- `Reconcile`: the whole function, both as the chain of stage functions `DiscoveryYears` and as the
  imperative `GetDiscoveryYear`.
- `Loader`: the per-row rewrites of `load_data`.
- `PerYear`: the counting block.

A table is a sequence of rows, and a row's label is its position. The columns that the source adds
(`year_disc`, `koi_year`) are sequences of integers, which the pass methods rebuild entry by entry.
A failed assertion becomes `Err(failure)` naming the first failing row.

Two behaviours of the source are stated explicitly rather than smoothed over:

- **Line 60 of `scripts/test_data.py` has no effect.** It writes the placeholder 2050 into the row
  copy that `iterrows` yields, not into the table. An excluded K2 row without a unique match
  therefore keeps its own `year` into the exclusion pass, and the `< 2040` check of line 76 never
  sees a placeholder (`K2Reconcile.UnmatchedExcludedKeepsYear`).
- **The last writer wins.** Every write to a confirmed planet's `year_disc` starts from `pl_disc`,
  not from the current value. A later catalog pass therefore overwrites an earlier one, and can raise
  a year that an earlier pass had lowered (`Linking.LaterPassCanRaise`). What always holds is that a
  planet is never dated after `pl_disc`. Within one linking pass, a planet also agrees with the last
  candidate linked to it (`Linking.LastLinkAgrees`), and since the TESS pass writes last, a planet
  whose last link is a TOI ends with that TOI's year (`Reconcile.TessLinkAgrees`). The K2 exclusion
  loop (lines 71-75) is the exception: it lowers every row of an excluded EPIC candidate to the
  group's earliest year without touching the planets. Two Confirmed revisions of one excluded
  candidate that each match a different planet can leave a planet with a later year than the K2 row
  linked to it: this happens when the two planets' `pl_disc` differ and the earlier one is before the
  group's earliest `year`, since the group's rows are then lowered to that earlier `pl_disc`. A
  later KOI or TOI pass may still relink the planet and overwrite its year.

## Model

| member | source | states |
|---|---|---|
| Common.Where | scripts/test_data.py:52-55 | `np.where(mask)[0]`: exactly the positions where the mask holds, in increasing order |
| Common.GroupMin | scripts/test_data.py:62-63 | the minimum of a column over the rows with a given key: attained by one such row, below all of them, absent exactly when no row has the key (NaN) |
| Common.CountBelowSplit | scripts/planets_over_time.py:62-68 | counting a union of disjoint row masks adds up their counts |
| Matching.MatchIndices | scripts/test_data.py:52-55 | the matched confirmed rows are exactly those within 1/60 in ra, dec and period, in table order |
| Matching.EdgeIsNoMatch | scripts/test_data.py:54 | a period exactly 1/60 away is not a match (strict comparison) |
| Matching.MissingPeriodNeverMatches | scripts/test_data.py:52-54 | a candidate without a period (NaN) matches no confirmed row |
| Matching.SingleMatchIsUnique | scripts/test_data.py:56 | when the search finds one row, every matching row is that row |
| Matching.UniqueMatchIsFound | scripts/test_data.py:52-56 | a confirmed row that alone matches is exactly what the search returns |
| Matching.MatchSymmetric | scripts/test_data.py:52-54 | the match relation does not depend on which side is the candidate |
| Matching.NameIndices | scripts/test_data.py:167 | the confirmed rows whose `pl_name` is the given name, in table order |
| KoiNames.RewriteK0 | utils.py:79 | the rewrite leaves no `K0` behind, keeps the first character, and leaves a name without `K0` unchanged |
| KoiNames.RewriteIdempotent | utils.py:79 | rewriting twice is rewriting once |
| KoiNames.RewriteExample | utils.py:79 | `K00142.01` becomes `KOI-142.01` |
| Linking.FirstFault | scripts/test_data.py:56-58 | the row where a loop stops: a failing row with no failing row before it; none exactly when no row fails |
| Linking.LastLinker | scripts/test_data.py:67-68 | the last row linked to a confirmed row, and none after it |
| Linking.LinkYear | scripts/test_data.py:63-68 | the year a link writes is min(catalog year, `pl_disc`): no later than either, equal to one |
| Linking.LinkPass | scripts/test_data.py:51-68 | the in-place confirmed-row loop fails exactly at the first failing row with its failure; otherwise both columns become `ConAfter`/`CandAfter` |
| Linking.CheckPass | scripts/test_data.py:176-181 | an assert-only loop reports the first failing row's failure, and none when no row fails |
| Linking.ConAfterBelowDisc | scripts/test_data.py:64-67 | a pass never dates a confirmed planet after its `pl_disc` |
| Linking.CandAfterBelowCatalog | scripts/test_data.py:63-68 | a linked catalog row is no later than its catalog year; an unlinked one keeps its value |
| Linking.LastLinkAgrees | scripts/test_data.py:64-68 | a confirmed planet and the last row linked to it end with the same year, min(catalog year, `pl_disc`) |
| Linking.UnlinkedConUnchanged | scripts/test_data.py:19 | a confirmed planet no row links to keeps its `year_disc` |
| Linking.LaterPassCanRaise | scripts/test_data.py:195-196 | a later pass can raise a year that an earlier pass lowered |
| K2Reconcile.GroupYearIsMin | scripts/test_data.py:62-63 | the earliest `year` among all revisions of the row's EPIC candidate |
| K2Reconcile.ConfirmedLoopFails | scripts/test_data.py:51-58 | the confirmed loop runs through exactly when every Confirmed row has one match or is in `k2exclude` |
| K2Reconcile.UnmatchedExcludedKeepsYear | scripts/test_data.py:56-60 | an excluded Confirmed row without a unique match is not linked and keeps its `year_disc` |
| K2Reconcile.SettleExcluded | scripts/test_data.py:71-75 | the exclusion loop gives every row of an excluded candidate the minimum its rows held before, and changes no other row |
| K2Reconcile.SettleName | scripts/test_data.py:72-75 | one excluded name: all its rows take their minimum; with no such row (NaN minimum) nothing changes |
| K2Reconcile.WriteRows | scripts/test_data.py:74-75 | the value is written at exactly the listed rows |
| K2Reconcile.SettleStep | scripts/test_data.py:71-75 | one round of the exclusion loop keeps the loop invariant, including for a name listed twice or with no rows |
| K2Reconcile.SettledAgree | scripts/test_data.py:71-75 | after the exclusion loop all rows of an excluded candidate agree on a value one of them held, no later than any of them |
| K2Reconcile.SettledBelow | scripts/test_data.py:73-75 | the exclusion loop never makes a row later |
| K2Reconcile.CandidatePass | scripts/test_data.py:83-94 | given each Candidate row's verdict (a match outside `k2exclude2` fails), the loop stops at the first failing row with its failure; otherwise every Candidate row gets the earliest `year` of its EPIC candidate and no other row changes |
| K2Reconcile.CandidateLoopFails | scripts/test_data.py:83-90 | the candidate loop runs through exactly when every Candidate row has no match or is in `k2exclude2` |
| K2Reconcile.RevisionsAgree | scripts/test_data.py:62-68 | two revisions of one EPIC candidate that are linked to the same planet get the same year |
| Vintage.EarlyName | scripts/test_data.py:109-111 | `'KOI-' + token` cut to the 12 characters of a `<U12` array: exactly its first min(12, length) characters |
| Vintage.PrefixEarly | scripts/test_data.py:110-115 | the in-place loop prefixes every entry of the array and nothing else |
| Vintage.LoadArchives | scripts/test_data.py:118-123 | every archived name is rewritten, in file order, and none keeps a `K0` |
| Vintage.FirstArchive | scripts/test_data.py:131-134 | the first archived table listing the KOI: it lists it and no earlier one does; none exactly when no table does |
| Vintage.ResolveVintage | scripts/test_data.py:126-134 | the scan with `continue`/`break` gives 2011 for an early-list KOI, else the year of the first archive listing it, 1990 if none does, and fails past the sixth archive |
| Vintage.ResolveVintages | scripts/test_data.py:126-134 | the whole column is built, or the run fails at the first KOI whose archive has no year |
| Vintage.VintageValues | scripts/test_data.py:99-134 | a vintage is a catalog year in 2011-2018 or 1990, and it is 1990 exactly when no list or archive holds the KOI |
| Vintage.RangeOkMeansTraced | scripts/test_data.py:136 | passing the min/max check means the KOI table is non-empty and every KOI was traced to a list or an archive |
| Vintage.FirstHitWins | scripts/test_data.py:131-134 | a KOI first found in the first of the two 2015 archives gets 2015 from it |
| Vintage.EarlyListWins | scripts/test_data.py:128-130 | an early-list KOI gets 2011 whatever the archives hold |
| KoiReconcile.IndexOf | scripts/test_data.py:166 | `list.index`: the first position holding the name |
| KoiReconcile.StandIns | scripts/test_data.py:149-166 | the two lists are parallel (12 entries each), and `KOI-142.01` stands for `KOI-142 b`, the entry at its own position |
| KoiReconcile.LinkJustified | scripts/test_data.py:158-168 | a linked KOI is Confirmed and either matches its planet by position or is excluded and its stand-in names that planet |
| KoiReconcile.ConfirmedLoopFails | scripts/test_data.py:158-168 | the loop runs through exactly when every Confirmed KOI has one match, or is excluded and its stand-in name finds exactly one planet |
| KoiReconcile.CandidateLoopFails | scripts/test_data.py:176-181 | the loop runs through exactly when no Candidate KOI matches a planet |
| ToiReconcile.LinkIsTheMatch | scripts/test_data.py:189-193 | a linked Confirmed TOI is linked to planet j exactly when it matches j |
| ToiReconcile.ConfirmedLoopFails | scripts/test_data.py:189-193 | the loop runs through exactly when every Confirmed TOI has exactly one match |
| ToiReconcile.CandidateLoopFails | scripts/test_data.py:200-204 | the loop runs through exactly when no Candidate TOI matches a planet |
| Reconcile.K2Pass | scripts/test_data.py:18-94 | the K2 part computes exactly the K2 stage: name checks, links, exclusions, bound, candidates |
| Reconcile.KoiPass | scripts/test_data.py:99-181 | the KOI part (prefixing, archive loading, vintage scan, range check, links, candidate check) computes exactly the KOI stage |
| Reconcile.ToiPass | scripts/test_data.py:185-204 | the TOI part computes exactly the TOI stage |
| Reconcile.GetDiscoveryYear | scripts/test_data.py:4-206 | the function returns the reconciled columns of `DiscoveryYears`, or the first failed assertion |
| Reconcile.K2StageFacts | scripts/test_data.py:24-94 | after a successful K2 part: planets are no later than `pl_disc` and K2 rows no later than their `year`; Candidate rows hold their group's earliest year, and other rows keep theirs; the name checks held; every row met its match rule |
| Reconcile.KoiStageFacts | scripts/test_data.py:99-181 | after a successful KOI part: every KOI is traced and dated 2011-2018; `year_disc` is no later than `koi_year`, and equal to it unless Confirmed; planets stay no later than `pl_disc`; every KOI met its match rule |
| Reconcile.ToiStageFacts | scripts/test_data.py:185-204 | after a successful TOI part: TOIs are no later than their `year`, and equal to it unless Confirmed; planets stay no later than `pl_disc`; Confirmed TOIs match exactly once and Candidates never |
| Reconcile.SuccessfulRun | scripts/test_data.py:18-206 | on success every year column is bounded (planets by `pl_disc`, candidates by their catalog year, KOIs in 2011-2018) and every catalog row obeyed the match rule of its disposition: Confirmed and Candidate rules for K2, KOI and TOI alike |
| Reconcile.TessLinkAgrees | scripts/test_data.py:194-197 | a planet whose last link is a TOI ends with exactly that TOI's year, min(TOI year, `pl_disc`) |
| Loader.TitleFrom | utils.py:75-76 | `str.title`: each letter run starts upper case and continues lower case; other characters are kept |
| Loader.TitleIgnoresCase | utils.py:75-76 | title-casing does not depend on the input's case |
| Loader.TitleMatches | utils.py:75-76 | a disposition becomes a title-case label exactly when it spells that label in any mixture of cases |
| Loader.TitleIdempotent | utils.py:75-76 | title-casing twice is title-casing once |
| Loader.TitleConfirmed | utils.py:75-76 | `CONFIRMED` becomes `Confirmed` |
| Loader.TitleCandidate | utils.py:75-76 | `CANDIDATE` becomes `Candidate` |
| Loader.TitleFalsePositive | utils.py:75-76 | `FALSE POSITIVE` becomes `False Positive` |
| Loader.Decimal | utils.py:71-72 | `str` of a non-negative integer: decimal digits without a leading zero |
| Loader.DecimalRoundTrip | utils.py:71-72 | reading back `str(n)` gives n |
| Loader.HostInjective | utils.py:72 | distinct TIC numbers give distinct hosts and distinct target links |
| Loader.SliceFrom | utils.py:101 | `str.slice(5)`: the text after the first five characters, empty for shorter text |
| Loader.DropLast | utils.py:102 | `str.slice(0, -3)`: the text without its last three characters, empty for shorter text |
| Loader.LoadData | utils.py:57-103 | every table keeps its rows and their order, and each row is rewritten on its own |
| Loader.ToiDispositionClean | utils.py:66-69 | no TOI disposition is missing or `PC` afterwards; both became `Candidate`, and every other value is kept |
| Loader.LoadedTables | utils.py:56-103 | after loading: confirmed rows are `Confirmed`, with the long TESS facility shortened and their identifiers untouched; the candidate facilities are `Kepler`/`K2`/`TESS`; KOI names have no `K0`; dispositions are title case and no TOI is `PC`; TOIs are named `TOI-`… with `TIC ` hosts |
| Loader.K2LinkId | utils.py:101 | the K2 link carries the EPIC number: `EPIC ` is exactly what is dropped |
| Loader.KoiLinkHost | utils.py:102 | the KOI link carries the host: the `.NN` suffix is exactly what is dropped |
| Loader.KoiLinkExample | utils.py:75-102 | a raw `K00142.01` / `CONFIRMED` row loads as `KOI-142.01`, `Confirmed`, linked to host `KOI-142` |
| PerYear.MinDisc | scripts/planets_over_time.py:48 | the smallest `pl_disc`, attained by some planet |
| PerYear.YearRange | scripts/planets_over_time.py:48 | the years from the first one to the current one inclusive, in order |
| PerYear.CountYears | scripts/planets_over_time.py:71-99 | the year loop appends one count per year; after the leading 0 is popped, its running sums are exactly the prefix sums of the counts |
| PerYear.LegendTotal | scripts/planets_over_time.py:68-96 | the legend total is `NTot`: `good.sum()`, plus all open candidates for Transit; `PcReachesTotal` relates it to the bars |
| PerYear.PcReachesTotal | scripts/planets_over_time.py:68-98 | when every selected planet's `year_disc` and, for Transit, every counted open candidate's year lie between the first paper year and the current year, the last running sum of the second figure equals the legend total `ntot` |
| PerYear.PcRowTotal | scripts/planets_over_time.py:75-98 | the same for any first year: the per-year counts by `year_disc` with candidates add up to `ntot` when all years are in range |
| PerYear.SumOfYearCounts | scripts/planets_over_time.py:75-78 | a table's yearly counts, summed over the first n years, count its selected rows dated in those years |
| PerYear.PerYearCounts | scripts/planets_over_time.py:48-128 | for every method in order, the counts by `pl_disc` and by `year_disc` (with candidates for Transit) per year, their running sums and legend totals; then the element-wise totals over methods |
| PerYear.CumulativeGrows | scripts/planets_over_time.py:78 | a running sum never decreases, and grows by exactly the counts in between |
| PerYear.SelectionsPartition | scripts/planets_over_time.py:62-67 | the three selections never overlap and cover every method except one literally named `Other` |
| PerYear.YearCountsAddUp | scripts/planets_over_time.py:62-76 | per year, the three methods' counts add up to all planets of that year (except a literal `Other`) |
| PerYear.CountsSumToRange | scripts/planets_over_time.py:75-78 | summing a method's yearly counts over the first n years counts its planets dated in those years |
| PerYear.CumulativeReachesTotal | scripts/planets_over_time.py:68-98 | when no paper is dated after the current year, a method's last running sum is its `good.sum()` |
| PerYear.SumAdd | scripts/planets_over_time.py:120 | summing commutes with adding lists position by position |
| PerYear.TotalsCumulate | scripts/planets_over_time.py:120-121 | the cumulative total over methods is the running sum of the per-year total |
| PerYear.CandidatesOnlyForTransit | scripts/planets_over_time.py:81-96 | for methods other than Transit, the counts and the legend total include confirmed planets only |

## Left out

- File and network input are not modelled: `read_csv`, `np.loadtxt` (with its `skiprows`) and `glob`. The loaded tables, the two early lists (their bare tokens) and the archived KOI name columns are inputs, and the archives come in sorted file-name order.
- The column renames of utils.py:62-64 are not modelled: a raw TOI row already has the renamed fields.
- Coordinates and periods are exact reals. A NaN period is `None` and never matches. A NaN ra or dec is not representable, and neither is floating-point rounding at the 1/60 threshold.
- The radius conversions and K2 radius back-filling of utils.py:81-92 are floating-point arithmetic and are not modelled.
- The TOI number's text form (`astype(str)` of a float column) is not modelled: the TOI is given as its text. The TIC number is a natural number, written in decimal.
- Loader.TitleFrom: title-casing is over ASCII letters only. Python's `str.title` also changes the case of non-ASCII letters, by Unicode rules.
- NaN values in the KOI and K2 disposition and candidate-name columns are not modelled: those columns are strings. `k2c_recentflag` is a boolean.
- The initial KOI `year_disc` of 1950 (scripts/test_data.py:21) is not modelled: line 138 overwrites it before anything reads it.
- The `base` bars, the legend label strings, the dictionaries keyed by method, the exponential fit, `get_update_time` and all Bokeh plotting are left out. The per-method lists are returned as sequences in the order of `methods`.
- PerYear.PerYearCounts: requires a non-empty confirmed table and a current year no earlier than the first `pl_disc`. With an empty table, `dfcon['pl_disc'].min()` is NaN and `range` fails at line 48 of scripts/planets_over_time.py. With a current year before the first paper year, the range is empty and `toican` at line 96 is unbound. The model does not describe either failure.
- The current year (`datetime.now()`) is a parameter.
- A failed assertion, or the `IndexError` of `koiyears[ii]` past the sixth archive, returns only the failure. The partly updated tables that Python would leave behind are not modelled.
- Update in place of the DataFrame columns is modelled as rebuilding a sequence entry by entry. Only the `<U12` arrays of the early lists are real arrays, so aliasing between DataFrame views is not captured.

