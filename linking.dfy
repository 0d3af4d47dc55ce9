/** The loop shape that scripts/test_data.py repeats for K2 (lines 51-68),
    KOI (lines 158-173) and TOI (lines 189-197): walk the catalog rows in
    order; a row that fails its assertion stops the run; a row linked to
    confirmed row j writes min(catalog year, pl_disc of j) into both its own
    `year_disc` and j's. The confirmed row's value is always recomputed from
    `pl_disc`, never from its current `year_disc`, so when several rows link
    to the same confirmed row the last one in table order wins. */
module Linking {
  import opened Common
  import opened Tables

  /** What a pass decides for one catalog row. */
  datatype Resolution = Linked(partner: nat) | Unlinked | Fault(failure: Failure)

  /** The `year_disc` columns after a pass. */
  datatype Columns = Columns(con: seq<int>, cand: seq<int>)

  /** Every link names an existing confirmed row. */
  predicate Partnered(res: seq<Resolution>, n: nat) {
    forall i :: 0 <= i < |res| && res[i].Linked? ==> res[i].partner < n
  }

  /** The first row whose assertion fails: where the loop stops. */
  function FirstFault(res: seq<Resolution>): (r: Option<nat>)
    ensures r.Some? ==> r.value < |res| && res[r.value].Fault?
    ensures r.Some? ==> forall k :: 0 <= k < r.value ==> !res[k].Fault?
    ensures r.None? <==> forall k :: 0 <= k < |res| ==> !res[k].Fault?
  {
    if |res| == 0 then None
    else if res[0].Fault? then Some(0)
    else
      match FirstFault(res[1..])
      case None => None
      case Some(k) => Some(k + 1)
  }

  /** The last row below `n` linked to confirmed row `j`: its write is the one
      that survives. */
  function LastLinker(res: seq<Resolution>, j: nat, n: nat): (r: Option<nat>)
    requires n <= |res|
    ensures r.Some? ==> r.value < n && res[r.value] == Linked(j)
    ensures r.Some? ==> forall k :: r.value < k < n ==> res[k] != Linked(j)
    ensures r.None? <==> forall k :: 0 <= k < n ==> res[k] != Linked(j)
  {
    if n == 0 then None
    else if res[n - 1] == Linked(j) then Some(n - 1)
    else LastLinker(res, j, n - 1)
  }

  /** The year that a linked row `i` writes into both tables. */
  function LinkYear(disc: seq<int>, catYear: seq<int>, res: seq<Resolution>, i: nat): (y: int)
    requires |catYear| == |res| && Partnered(res, |disc|)
    requires i < |res| && res[i].Linked?
    ensures y <= catYear[i] && y <= disc[res[i].partner]
    ensures y == catYear[i] || y == disc[res[i].partner]
  {
    Min(catYear[i], disc[res[i].partner])
  }

  /** Confirmed row `j`'s `year_disc` once rows `0..n-1` have been processed. */
  function ConYearAt(conYear: seq<int>, disc: seq<int>, catYear: seq<int>, res: seq<Resolution>, j: nat, n: nat): int
    requires |conYear| == |disc| && |catYear| == |res| && Partnered(res, |disc|)
    requires j < |conYear| && n <= |res|
  {
    match LastLinker(res, j, n)
    case Some(i) => LinkYear(disc, catYear, res, i)
    case None => conYear[j]
  }

  /** The confirmed table's `year_disc` column after a whole pass. */
  function ConAfter(conYear: seq<int>, disc: seq<int>, catYear: seq<int>, res: seq<Resolution>): (c: seq<int>)
    requires |conYear| == |disc| && |catYear| == |res| && Partnered(res, |disc|)
    ensures |c| == |conYear|
  {
    seq(|conYear|, j requires 0 <= j < |conYear| => ConYearAt(conYear, disc, catYear, res, j, |res|))
  }

  /** The catalog's `year_disc` column after a whole pass. */
  function CandAfter(candYear: seq<int>, disc: seq<int>, catYear: seq<int>, res: seq<Resolution>): (c: seq<int>)
    requires |candYear| == |res| && |catYear| == |res| && Partnered(res, |disc|)
    ensures |c| == |candYear|
  {
    seq(|candYear|, i requires 0 <= i < |candYear| =>
      if res[i].Linked? then LinkYear(disc, catYear, res, i) else candYear[i])
  }

  /** One catalog's confirmed-row loop. `disc` is the `pl_disc` column,
      `conYear` and `candYear` the two `year_disc` columns before the loop,
      `catYear` the catalog year each row contributes. */
  method LinkPass(conYear: seq<int>, disc: seq<int>, candYear: seq<int>, catYear: seq<int>, res: seq<Resolution>)
    returns (r: Result<Columns>)
    requires |conYear| == |disc| && |candYear| == |res| && |catYear| == |res| && Partnered(res, |disc|)
    ensures r.Err? <==> FirstFault(res).Some?
    ensures r.Err? ==> r.error == res[FirstFault(res).value].failure
    ensures r.Ok? ==> r.value.con == ConAfter(conYear, disc, catYear, res)
    ensures r.Ok? ==> r.value.cand == CandAfter(candYear, disc, catYear, res)
  {
    var con, cand := conYear, candYear;
    var i := 0;
    while i < |res|
      invariant 0 <= i <= |res|
      invariant forall k :: 0 <= k < i ==> !res[k].Fault?
      invariant |con| == |conYear| && |cand| == |candYear|
      invariant forall j :: 0 <= j < |con| ==> con[j] == ConYearAt(conYear, disc, catYear, res, j, i)
      invariant forall k :: 0 <= k < |cand| ==>
        cand[k] == if k < i && res[k].Linked? then LinkYear(disc, catYear, res, k) else candYear[k]
    {
      match res[i] {
        case Fault(f) =>
          return Err(f);
        case Linked(j) =>
          var y := Min(catYear[i], disc[j]);
          con := con[j := y];
          cand := cand[i := y];
        case Unlinked =>
      }
      i := i + 1;
    }
    r := Ok(Columns(con, cand));
  }

  /** A loop that only asserts (lines 176-181 and 200-204): the first failure, if any. */
  method CheckPass(res: seq<Resolution>) returns (r: Option<Failure>)
    ensures r.None? <==> FirstFault(res).None?
    ensures r.Some? ==> r.value == res[FirstFault(res).value].failure
  {
    var i := 0;
    while i < |res|
      invariant 0 <= i <= |res|
      invariant forall k :: 0 <= k < i ==> !res[k].Fault?
    {
      if res[i].Fault? {
        return Some(res[i].failure);
      }
      i := i + 1;
    }
    return None;
  }

  /** A pass never raises a confirmed `year_disc` above `pl_disc`. */
  lemma ConAfterBelowDisc(conYear: seq<int>, disc: seq<int>, catYear: seq<int>, res: seq<Resolution>)
    requires |conYear| == |disc| && |catYear| == |res| && Partnered(res, |disc|)
    requires forall j :: 0 <= j < |conYear| ==> conYear[j] <= disc[j]
    ensures forall j :: 0 <= j < |conYear| ==> ConAfter(conYear, disc, catYear, res)[j] <= disc[j]
  {
  }

  /** A linked catalog row never ends up later than its own catalog year, and
      an unlinked one keeps its value. */
  lemma CandAfterBelowCatalog(candYear: seq<int>, disc: seq<int>, catYear: seq<int>, res: seq<Resolution>)
    requires |candYear| == |res| && |catYear| == |res| && Partnered(res, |disc|)
    ensures forall i :: 0 <= i < |res| && res[i].Linked? ==>
      CandAfter(candYear, disc, catYear, res)[i] <= catYear[i]
    ensures forall i :: 0 <= i < |res| && !res[i].Linked? ==>
      CandAfter(candYear, disc, catYear, res)[i] == candYear[i]
  {
  }

  /** Last writer wins: the last row linked to `j` and `j` itself hold the same
      year, min(catalog year, pl_disc), whatever `j` held before the pass. */
  lemma {:induction false} LastLinkAgrees(conYear: seq<int>, disc: seq<int>, candYear: seq<int>, catYear: seq<int>, res: seq<Resolution>, i: nat, j: nat)
    requires |conYear| == |disc| && |candYear| == |res| && |catYear| == |res| && Partnered(res, |disc|)
    requires i < |res| && j < |disc| && res[i] == Linked(j)
    requires forall k :: i < k < |res| ==> res[k] != Linked(j)
    ensures ConAfter(conYear, disc, catYear, res)[j] == CandAfter(candYear, disc, catYear, res)[i]
    ensures ConAfter(conYear, disc, catYear, res)[j] == Min(catYear[i], disc[j])
  {
    var last := LastLinker(res, j, |res|);
    assert last.Some? by {
      assert res[i] == Linked(j);
    }
    assert last.value == i;
  }

  /** A confirmed row that no catalog row links to keeps its value. */
  lemma UnlinkedConUnchanged(conYear: seq<int>, disc: seq<int>, catYear: seq<int>, res: seq<Resolution>, j: nat)
    requires |conYear| == |disc| && |catYear| == |res| && Partnered(res, |disc|)
    requires j < |conYear|
    requires forall k :: 0 <= k < |res| ==> res[k] != Linked(j)
    ensures ConAfter(conYear, disc, catYear, res)[j] == conYear[j]
  {
  }

  /** Passes do not compose monotonically: a confirmed row lowered to 2015 by
      one pass is raised to 2018 by a later pass whose only link carries 2018. */
  lemma LaterPassCanRaise()
    ensures var first := ConAfter([2019], [2019], [2015], [Linked(0)]);
            var second := ConAfter(first, [2019], [2018], [Linked(0)]);
            first == [2015] && second == [2018]
  {
    var first := ConAfter([2019], [2019], [2015], [Linked(0)]);
    assert LastLinker([Linked(0)], 0, 1) == Some(0);
    assert first[0] == 2015;
    var second := ConAfter(first, [2019], [2018], [Linked(0)]);
    assert second[0] == 2018;
  }
}
