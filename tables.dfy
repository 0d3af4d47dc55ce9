/** The four catalogs as `load_data` in utils.py hands them to the scripts.
    A table is a sequence of rows; a row's label is its position, since every
    table is read with a default index. Only the columns the modelled code reads
    or writes are kept. The columns that `get_discovery_year` adds (`year_disc`,
    `koi_year`) are not row fields: they are separate `seq<int>` columns,
    because they are the only thing that reconciliation changes. */
module Tables {
  import opened Common

  /** Sky position in degrees and orbital period in days; a NaN period is None. */
  datatype Position = Position(ra: real, dec: real, period: Option<real>)

  /** A row of the confirmed-planet table (`dfcon`). */
  datatype Confirmed = Confirmed(
    name: string,          // pl_name
    host: string,          // pl_hostname
    pos: Position,         // ra, dec, pl_orbper
    facility: string,      // pl_facility
    discMethod: string,    // pl_discmethod
    disc: int,             // pl_disc, the year of the discovery paper
    status: string,
    url: string)

  /** A row of the Kepler KOI table (`dfkoi`). */
  datatype Koi = Koi(
    name: string,          // kepoi_name
    disp: string,          // koi_disposition
    pos: Position,         // ra, dec, koi_period
    facility: string,
    url: string)

  /** A row of the K2 candidate table (`dfk2`); one EPIC candidate can recur
      across catalog revisions, each revision a row. */
  datatype K2Cand = K2Cand(
    candName: string,      // epic_candname
    epicName: string,      // epic_name
    plName: Option<string>,// pl_name, NaN until confirmed
    disp: string,          // k2c_disp
    pos: Position,         // ra, dec, pl_orbper
    year: int,             // publication year of the revision
    recent: bool,          // k2c_recentflag
    facility: string,
    url: string)

  /** A row of the ExoFOP TESS TOI table (`dftoi`). */
  datatype Toi = Toi(
    toi: string,           // TOI
    tic: nat,              // TIC
    host: string,
    disp: string,
    pos: Position,         // RA, Dec, period
    year: int,
    facility: string,
    url: string)

  /** The assertion of scripts/test_data.py that stopped the run, with the
      position of the offending row and the number of matches it had. */
  datatype Failure =
    | K2ConfirmedNameMissing                         // line 30
    | K2CandidateNameConfirmed                       // line 35
    | K2ConfirmedMatchCount(row: nat, count: nat)    // line 58
    | K2YearBound                                    // line 76
    | K2CandidateOverlap(row: nat, count: nat)       // line 90
    | KoiYearIndex(row: nat)                         // line 133, koiyears[ii] out of range
    | KoiYearRange                                   // line 136
    | KoiConfirmedMatchCount(row: nat, count: nat)   // line 165
    | KoiNameLookup(row: nat, count: nat)            // line 168
    | KoiCandidateOverlap(row: nat, count: nat)      // line 181
    | ToiConfirmedMatchCount(row: nat, count: nat)   // line 193
    | ToiCandidateOverlap(row: nat, count: nat)      // line 204

  datatype Result<T> = Ok(value: T) | Err(error: Failure)

  const ConfirmedLabel: string := "Confirmed"
  const CandidateLabel: string := "Candidate"

  /** The `pl_disc` column. */
  function Discs(con: seq<Confirmed>): (d: seq<int>)
    ensures |d| == |con| && forall j :: 0 <= j < |con| ==> d[j] == con[j].disc
  {
    seq(|con|, j requires 0 <= j < |con| => con[j].disc)
  }
}
