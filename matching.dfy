/** The positional match of scripts/test_data.py: a confirmed planet and a
    candidate describe the same object when ra, dec and period each differ by
    strictly less than 1/60. Coordinates are exact reals here; a NaN period
    compares false, so a missing period on either side never matches. */
module Matching {
  import opened Common
  import opened Tables

  /** One arcminute in ra and dec, one minute of period in days. */
  const Tolerance: real := 1.0 / 60.0

  function Abs(x: real): (a: real)
    ensures a >= 0.0 && (a == x || a == -x)
  {
    if x < 0.0 then -x else x
  }

  predicate Near(a: real, b: real) {
    Abs(a - b) < Tolerance
  }

  predicate PeriodNear(a: Option<real>, b: Option<real>) {
    a.Some? && b.Some? && Near(a.value, b.value)
  }

  /** The row mask of lines 52-54 (and 84-86, 159-161, 177-179, 190-192,
      201-203) at one confirmed row. */
  predicate Matches(c: Confirmed, p: Position) {
    Near(c.pos.ra, p.ra) && Near(c.pos.dec, p.dec) && PeriodNear(c.pos.period, p.period)
  }

  /** `np.where(mask)[0]`: the positions of the confirmed rows that match `p`. */
  function MatchIndices(con: seq<Confirmed>, p: Position): (r: seq<nat>)
    ensures forall k :: 0 <= k < |r| ==> r[k] < |con| && Matches(con[r[k]], p)
    ensures forall j :: 0 <= j < |con| && Matches(con[j], p) ==> j in r
    ensures forall k, l :: 0 <= k < l < |r| ==> r[k] < r[l]
  {
    Where(con, (c: Confirmed) => Matches(c, p))
  }

  /** `np.where(dfcon['pl_name'] == name)[0]`, the name lookup of line 167. */
  function NameIndices(con: seq<Confirmed>, name: string): (r: seq<nat>)
    ensures forall k :: 0 <= k < |r| ==> r[k] < |con| && con[r[k]].name == name
    ensures forall j :: 0 <= j < |con| && con[j].name == name ==> j in r
    ensures forall k, l :: 0 <= k < l < |r| ==> r[k] < r[l]
  {
    Where(con, (c: Confirmed) => c.name == name)
  }

  /** The tolerance is strict: a period exactly 1/60 day away is not a match,
      whatever the coordinates. */
  lemma EdgeIsNoMatch(c: Confirmed, p: Position)
    requires c.pos.period.Some? && p.period == Some(c.pos.period.value + Tolerance)
    ensures !Matches(c, p)
  {
  }

  /** A candidate without a period matches no confirmed row at all. */
  lemma MissingPeriodNeverMatches(con: seq<Confirmed>, p: Position)
    requires p.period.None?
    ensures MatchIndices(con, p) == []
  {
    WhereEmpty(con, (c: Confirmed) => Matches(c, p));
  }

  /** A single match means no other confirmed row matches. */
  lemma {:induction false} SingleMatchIsUnique(con: seq<Confirmed>, p: Position, j: nat)
    requires |MatchIndices(con, p)| == 1
    requires j < |con| && Matches(con[j], p)
    ensures j == MatchIndices(con, p)[0]
  {
    WhereSingle(con, (c: Confirmed) => Matches(c, p), j);
  }

  /** Conversely, a confirmed row that is the only one matching is what the
      search returns. */
  lemma {:induction false} UniqueMatchIsFound(con: seq<Confirmed>, p: Position, j: nat)
    requires j < |con| && Matches(con[j], p)
    requires forall i :: 0 <= i < |con| && Matches(con[i], p) ==> i == j
    ensures MatchIndices(con, p) == [j]
  {
    WhereUnique(con, (c: Confirmed) => Matches(c, p), j);
  }

  /** The match relation is symmetric in the confirmed and candidate position. */
  lemma MatchSymmetric(c: Confirmed, d: Confirmed)
    ensures Matches(c, d.pos) <==> Matches(d, c.pos)
  {
  }
}
