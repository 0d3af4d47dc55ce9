/** The per-row clean-up of `load_data` (utils.py:56-79, 94-103) that turns
    the four catalog files into the tables the scripts read. Every step is a
    column-wide rewrite, so each table is modelled as its raw rows mapped
    through one function per row; reading the CSV files and the radius
    arithmetic of lines 81-92 are not modelled. */
module Loader {
  import opened Common
  import opened Tables
  import opened KoiNames

  /** A confirmed-table row as read from the file. */
  datatype RawConfirmed = RawConfirmed(name: string, host: string, pos: Position, facility: string, discMethod: string, disc: int)

  /** A KOI row as read; the disposition is upper case in the file. */
  datatype RawKoi = RawKoi(name: string, disp: string, pos: Position)

  /** A K2 candidate row as read. */
  datatype RawK2 = RawK2(candName: string, epicName: string, plName: Option<string>, disp: string, pos: Position, year: int, recent: bool)

  /** An ExoFOP TOI row as read, after the column renames of lines 62-64.
      `toi` is the text form of the TOI number; the disposition may be
      missing. */
  datatype RawToi = RawToi(toi: string, tic: nat, disp: Option<string>, pos: Position, year: int)

  const LongTess: string := "Transiting Exoplanet Survey Satellite (TESS)"
  const ConfirmedUrl: string := "https://exoplanetarchive.ipac.caltech.edu/overview/"
  const K2Url: string := "https://exofop.ipac.caltech.edu/k2/edit_target.php?id="
  const KoiUrl: string := "https://exoplanetarchive.ipac.caltech.edu/cgi-bin/DisplayOverview/nph-DisplayOverview?objname="
  const KoiUrlTail: string := "&type=KEPLER_TCE_HOST"
  const ToiUrl: string := "https://exofop.ipac.caltech.edu/tess/target.php?id="

  // ---------------------------------------------------------------------
  // str.title on ASCII text

  predicate IsUpper(c: char) { 'A' <= c <= 'Z' }
  predicate IsLower(c: char) { 'a' <= c <= 'z' }
  predicate IsLetter(c: char) { IsUpper(c) || IsLower(c) }

  function Upper(c: char): (u: char)
    ensures IsLetter(c) ==> IsUpper(u)
    ensures !IsLetter(c) ==> u == c
  {
    if IsLower(c) then (c as int - 32) as char else c
  }

  function Lower(c: char): (l: char)
    ensures IsLetter(c) ==> IsLower(l)
    ensures !IsLetter(c) ==> l == c
  {
    if IsUpper(c) then (c as int + 32) as char else c
  }

  /** Whether `str.title` upper-cases position k: a letter not preceded by a
      letter (`prevCased` says whether the text before `s` ended in one). */
  predicate StartsWord(s: string, k: nat, prevCased: bool)
    requires k < |s|
  {
    if k == 0 then !prevCased else !IsLetter(s[k - 1])
  }

  /** `str.title` from a given state: the first letter of every run of
      letters upper case, the rest of the run lower case, everything else
      as it was. */
  function TitleFrom(s: string, prevCased: bool): (r: string)
    ensures |r| == |s|
    ensures forall k :: 0 <= k < |s| ==>
      r[k] == if !IsLetter(s[k]) then s[k] else if StartsWord(s, k, prevCased) then Upper(s[k]) else Lower(s[k])
    decreases |s|
  {
    if |s| == 0 then ""
    else
      var c := s[0];
      var head := if !IsLetter(c) then c else if prevCased then Lower(c) else Upper(c);
      var rest := TitleFrom(s[1..], IsLetter(c));
      assert forall k :: 1 <= k < |s| ==> StartsWord(s, k, prevCased) == StartsWord(s[1..], k - 1, IsLetter(c));
      [head] + rest
  }

  /** `str.title()` (lines 75-76). */
  function Title(s: string): string {
    TitleFrom(s, false)
  }

  /** Title-casing ignores the case of its input. */
  lemma {:induction false} TitleIgnoresCase(s: string, t: string)
    requires |s| == |t| && forall k :: 0 <= k < |s| ==> Lower(s[k]) == Lower(t[k])
    ensures Title(s) == Title(t)
  {
    forall k | 0 <= k < |s| ensures Title(s)[k] == Title(t)[k] {
      LowerSame(s[k], t[k]);
      if k > 0 {
        LowerSame(s[k - 1], t[k - 1]);
      }
    }
  }

  /** Two characters with the same lower case are both letters or both not,
      and have the same upper case. */
  lemma LowerSame(a: char, b: char)
    requires Lower(a) == Lower(b)
    ensures IsLetter(a) <==> IsLetter(b)
    ensures IsLetter(a) ==> Upper(a) == Upper(b) && Lower(a) == Lower(b)
    ensures !IsLetter(a) ==> a == b
  {
  }

  /** Title-casing keeps every character's lower case. */
  lemma TitleKeepsLetters(s: string)
    ensures |Title(s)| == |s| && forall k :: 0 <= k < |s| ==> Lower(Title(s)[k]) == Lower(s[k])
  {
  }

  /** A disposition lands on a title-case label exactly when it spells that
      label in any mixture of cases. */
  lemma {:induction false} TitleMatches(s: string, target: string)
    requires Title(target) == target
    ensures Title(s) == target <==> |s| == |target| && forall k :: 0 <= k < |s| ==> Lower(s[k]) == Lower(target[k])
  {
    if Title(s) == target {
      TitleKeepsLetters(s);
    }
    if |s| == |target| && forall k :: 0 <= k < |s| ==> Lower(s[k]) == Lower(target[k]) {
      TitleIgnoresCase(s, target);
    }
  }

  /** Title-casing twice is title-casing once. */
  lemma {:induction false} TitleIdempotent(s: string)
    ensures Title(Title(s)) == Title(s)
  {
    TitleKeepsLetters(s);
    TitleIgnoresCase(Title(s), s);
  }

  /** The archive's CONFIRMED becomes the label the reconciler selects on. */
  lemma TitleConfirmed(s: string)
    requires s == "CONFIRMED"
    ensures Title(s) == ConfirmedLabel
  {
    var t := Title(s);
    assert t[0] == 'C';
    assert t[1] == 'o';
    assert t[2] == 'n';
    assert t[3] == 'f';
    assert t[4] == 'i';
    assert t[5] == 'r';
    assert t[6] == 'm';
    assert t[7] == 'e';
    assert t[8] == 'd';
  }

  /** The archive's CANDIDATE becomes the label the reconciler selects on. */
  lemma TitleCandidate(s: string)
    requires s == "CANDIDATE"
    ensures Title(s) == CandidateLabel
  {
    var t := Title(s);
    assert t[0] == 'C';
    assert t[1] == 'a';
    assert t[2] == 'n';
    assert t[3] == 'd';
    assert t[4] == 'i';
    assert t[5] == 'd';
    assert t[6] == 'a';
    assert t[7] == 't';
    assert t[8] == 'e';
  }

  /** Title-casing works piece by piece: the second piece starts in the
      state the first one ends in. */
  lemma {:induction false} TitleJoin(a: string, b: string, prevCased: bool)
    ensures TitleFrom(a + b, prevCased) ==
      TitleFrom(a, prevCased) + TitleFrom(b, if |a| > 0 then IsLetter(a[|a| - 1]) else prevCased)
  {
    var mid := if |a| > 0 then IsLetter(a[|a| - 1]) else prevCased;
    var l, r := TitleFrom(a + b, prevCased), TitleFrom(a, prevCased) + TitleFrom(b, mid);
    assert |l| == |r| == |a| + |b|;
    forall k | 0 <= k < |l| ensures l[k] == r[k] {
      if k < |a| {
        TitleJoinLeft(a, b, prevCased, k);
        assert r[k] == TitleFrom(a, prevCased)[k];
      } else {
        TitleJoinRight(a, b, prevCased, k);
        assert r[k] == TitleFrom(b, mid)[k - |a|];
      }
    }
    assert l == r;
  }

  /** A position of the first piece is cased as in the first piece alone. */
  lemma TitleJoinLeft(a: string, b: string, prevCased: bool, k: nat)
    requires k < |a|
    ensures TitleFrom(a + b, prevCased)[k] == TitleFrom(a, prevCased)[k]
  {
    assert (a + b)[k] == a[k];
    assert StartsWord(a + b, k, prevCased) == StartsWord(a, k, prevCased) by {
      assert k > 0 ==> (a + b)[k - 1] == a[k - 1];
    }
  }

  /** A position of the second piece is cased as in the second piece alone,
      started in the state the first piece ends in. */
  lemma TitleJoinRight(a: string, b: string, prevCased: bool, k: nat)
    requires |a| <= k < |a| + |b|
    ensures TitleFrom(a + b, prevCased)[k] ==
      TitleFrom(b, if |a| > 0 then IsLetter(a[|a| - 1]) else prevCased)[k - |a|]
  {
    var mid := if |a| > 0 then IsLetter(a[|a| - 1]) else prevCased;
    assert (a + b)[k] == b[k - |a|];
    assert StartsWord(a + b, k, prevCased) == StartsWord(b, k - |a|, mid) by {
      if k > |a| {
        assert (a + b)[k - 1] == b[k - 1 - |a|];
      } else if k > 0 {
        assert (a + b)[k - 1] == a[|a| - 1];
      }
    }
  }

  /** Each word is capitalised on its own. */
  lemma TitleFalsePositive(first: string, second: string)
    requires first == "FALSE " && second == "POSITIVE"
    ensures Title(first + second) == "False Positive"
  {
    assert Title(first + second) == TitleFrom(first, false) + TitleFrom(second, false) by {
      assert !IsLetter(first[|first| - 1]);
      TitleJoin(first, second, false);
    }
    TitleFalse(first);
    TitlePositive(second);
    assert "False " + "Positive" == "False Positive";
  }

  lemma TitleFalse(s: string)
    requires s == "FALSE "
    ensures TitleFrom(s, false) == "False "
  {
    var t := TitleFrom(s, false);
    assert t[0] == 'F';
    assert t[1] == 'a';
    assert t[2] == 'l';
    assert t[3] == 's';
    assert t[4] == 'e';
    assert t[5] == ' ';
  }

  lemma TitlePositive(s: string)
    requires s == "POSITIVE"
    ensures TitleFrom(s, false) == "Positive"
  {
    var t := TitleFrom(s, false);
    assert t[0] == 'P';
    assert t[1] == 'o';
    assert t[2] == 's';
    assert t[3] == 'i';
    assert t[4] == 't';
    assert t[5] == 'i';
    assert t[6] == 'v';
    assert t[7] == 'e';
  }

  // ---------------------------------------------------------------------
  // Integer text

  function Digit(d: nat): (c: char)
    requires d < 10
    ensures '0' <= c <= '9'
  {
    ('0' as int + d) as char
  }

  /** `str(n)` for a non-negative integer. */
  function Decimal(n: nat): (s: string)
    ensures |s| > 0 && forall k :: 0 <= k < |s| ==> '0' <= s[k] <= '9'
    ensures |s| > 1 ==> s[0] != '0'
  {
    if n < 10 then [Digit(n)] else Decimal(n / 10) + [Digit(n % 10)]
  }

  /** The value of a string of decimal digits. */
  function DecimalValue(s: string): (n: nat)
    requires forall k :: 0 <= k < |s| ==> '0' <= s[k] <= '9'
  {
    if |s| == 0 then 0 else 10 * DecimalValue(s[..|s| - 1]) + (s[|s| - 1] as int - '0' as int)
  }

  /** Reading back `str(n)` gives n. */
  lemma {:induction false} DecimalRoundTrip(n: nat)
    ensures DecimalValue(Decimal(n)) == n
  {
    if n >= 10 {
      var s := Decimal(n);
      assert s[..|s| - 1] == Decimal(n / 10);
      DecimalRoundTrip(n / 10);
    }
  }

  /** Different TIC numbers give different hosts and different target links. */
  lemma HostInjective(a: nat, b: nat)
    requires ToiHost(a) == ToiHost(b) || ToiLink(a) == ToiLink(b)
    ensures a == b
  {
    var p := if ToiHost(a) == ToiHost(b) then "TIC " else ToiUrl;
    assert Decimal(a) == (p + Decimal(a))[|p|..];
    assert Decimal(b) == (p + Decimal(b))[|p|..];
    DecimalRoundTrip(a);
    DecimalRoundTrip(b);
  }

  // ---------------------------------------------------------------------
  // The per-row rewrites

  /** Lines 67 and 69: a missing disposition becomes 'PC', then every 'PC'
      becomes 'Candidate'. */
  function ToiDisposition(d: Option<string>): string {
    var filled := if d.None? then "PC" else d.value;
    if filled == "PC" then CandidateLabel else filled
  }

  /** Line 72. */
  function ToiHost(tic: nat): string {
    "TIC " + Decimal(tic)
  }

  /** Line 103. */
  function ToiLink(tic: nat): string {
    ToiUrl + Decimal(tic)
  }

  /** `Series.str.slice(start)`: empty when the text is shorter. */
  function SliceFrom(s: string, start: nat): (r: string)
    ensures |s| >= start ==> s == s[..start] + r
    ensures |s| < start ==> r == []
  {
    if |s| >= start then s[start..] else []
  }

  /** `Series.str.slice(0, -k)`: empty when the text is shorter. */
  function DropLast(s: string, k: nat): (r: string)
    ensures |s| >= k ==> s == r + s[|s| - k..]
    ensures |s| < k ==> r == []
  {
    if |s| >= k then s[..|s| - k] else []
  }

  /** Lines 57, 59 and 100. */
  function ConfirmedRow(r: RawConfirmed): Confirmed {
    Confirmed(r.name, r.host, r.pos, if r.facility == LongTess then "TESS" else r.facility,
              r.discMethod, r.disc, ConfirmedLabel, ConfirmedUrl + r.host)
  }

  /** Lines 75, 79, 95 and 102; the link is built from the rewritten name. */
  function KoiRow(r: RawKoi): Koi {
    var name := RewriteK0(r.name);
    Koi(name, Title(r.disp), r.pos, "Kepler", KoiUrl + DropLast(name, 3) + KoiUrlTail)
  }

  /** Lines 76, 96 and 101. */
  function K2Row(r: RawK2): K2Cand {
    K2Cand(r.candName, r.epicName, r.plName, Title(r.disp), r.pos, r.year, r.recent, "K2",
           K2Url + SliceFrom(r.epicName, 5))
  }

  /** Lines 67-72, 97 and 103. */
  function ToiRow(r: RawToi): Toi {
    Toi("TOI-" + r.toi, r.tic, ToiHost(r.tic), ToiDisposition(r.disp), r.pos, r.year, "TESS", ToiLink(r.tic))
  }

  /** The tables `load_data` returns, in its order. */
  datatype Loaded = Loaded(con: seq<Confirmed>, koi: seq<Koi>, k2: seq<K2Cand>, toi: seq<Toi>)

  /** `load_data` after the files are read: every table keeps its rows and
      their order, and each row is rewritten on its own. */
  function LoadData(con: seq<RawConfirmed>, koi: seq<RawKoi>, k2: seq<RawK2>, toi: seq<RawToi>): (t: Loaded)
    ensures |t.con| == |con| && |t.koi| == |koi| && |t.k2| == |k2| && |t.toi| == |toi|
    ensures forall j :: 0 <= j < |con| ==> t.con[j] == ConfirmedRow(con[j])
    ensures forall i :: 0 <= i < |koi| ==> t.koi[i] == KoiRow(koi[i])
    ensures forall i :: 0 <= i < |k2| ==> t.k2[i] == K2Row(k2[i])
    ensures forall i :: 0 <= i < |toi| ==> t.toi[i] == ToiRow(toi[i])
  {
    Loaded(seq(|con|, j requires 0 <= j < |con| => ConfirmedRow(con[j])),
           seq(|koi|, i requires 0 <= i < |koi| => KoiRow(koi[i])),
           seq(|k2|, i requires 0 <= i < |k2| => K2Row(k2[i])),
           seq(|toi|, i requires 0 <= i < |toi| => ToiRow(toi[i])))
  }

  /** The TOI disposition column holds neither a missing value nor 'PC'
      afterwards: both became 'Candidate', and every other value is kept. */
  lemma ToiDispositionClean(d: Option<string>)
    ensures ToiDisposition(d) != "PC"
    ensures ToiDisposition(d) == CandidateLabel <==> d.None? || d == Some("PC") || d == Some(CandidateLabel)
    ensures d.Some? && d.value != "PC" ==> ToiDisposition(d) == d.value
  {
  }

  /** What every loaded table satisfies: confirmed rows are all 'Confirmed'
      with the long TESS facility name shortened and nothing else renamed;
      candidate tables carry their mission as facility; KOI names are in
      KOI- form; dispositions are title case; no TOI is 'PC'; a TOI is named
      'TOI-' plus its number and its host 'TIC ' plus a text that reads back
      as its TIC number; and the confirmed identifiers the reconciler
      matches on are untouched. */
  lemma {:induction false} LoadedTables(con: seq<RawConfirmed>, koi: seq<RawKoi>, k2: seq<RawK2>, toi: seq<RawToi>)
    ensures var t := LoadData(con, koi, k2, toi);
      forall j :: 0 <= j < |con| ==>
        t.con[j].status == ConfirmedLabel && t.con[j].facility != LongTess &&
        t.con[j].name == con[j].name && t.con[j].pos == con[j].pos && t.con[j].disc == con[j].disc &&
        (con[j].facility != LongTess ==> t.con[j].facility == con[j].facility)
    ensures var t := LoadData(con, koi, k2, toi);
      forall i :: 0 <= i < |koi| ==>
        t.koi[i].facility == "Kepler" && NoK0(t.koi[i].name) && Title(t.koi[i].disp) == t.koi[i].disp
    ensures var t := LoadData(con, koi, k2, toi);
      forall i :: 0 <= i < |k2| ==> t.k2[i].facility == "K2" && Title(t.k2[i].disp) == t.k2[i].disp
    ensures var t := LoadData(con, koi, k2, toi);
      forall i :: 0 <= i < |toi| ==> t.toi[i].facility == "TESS" && t.toi[i].disp != "PC"
    ensures var t := LoadData(con, koi, k2, toi);
      forall i :: 0 <= i < |toi| ==>
        t.toi[i].toi == "TOI-" + toi[i].toi && t.toi[i].tic == toi[i].tic &&
        t.toi[i].host[..4] == "TIC " && DecimalValue(t.toi[i].host[4..]) == toi[i].tic
  {
    var t := LoadData(con, koi, k2, toi);
    forall i | 0 <= i < |koi| ensures Title(t.koi[i].disp) == t.koi[i].disp {
      TitleIdempotent(koi[i].disp);
    }
    forall i | 0 <= i < |k2| ensures Title(t.k2[i].disp) == t.k2[i].disp {
      TitleIdempotent(k2[i].disp);
    }
    forall i | 0 <= i < |toi| ensures t.toi[i].disp != "PC" {
      ToiDispositionClean(toi[i].disp);
    }
    forall i | 0 <= i < |toi| ensures t.toi[i].host[..4] == "TIC " && DecimalValue(t.toi[i].host[4..]) == toi[i].tic {
      assert t.toi[i].host[4..] == Decimal(toi[i].tic);
      DecimalRoundTrip(toi[i].tic);
    }
  }

  /** The K2 link carries the EPIC number: 'EPIC ' is exactly the five
      characters dropped. */
  lemma K2LinkId(id: string)
    ensures SliceFrom("EPIC " + id, 5) == id
  {
    assert ("EPIC " + id)[5..] == id;
  }

  /** The KOI link carries the host star: the planet suffix '.NN' is exactly
      the three characters dropped. */
  lemma KoiLinkHost(host: string, suffix: string)
    requires |suffix| == 3
    ensures DropLast(host + suffix, 3) == host
  {
    assert (host + suffix)[..|host|] == host;
  }

  /** A confirmed KOI in archive form, K00142.01, loads as KOI-142.01 with
      disposition 'Confirmed' and a link to its host KOI-142. */
  lemma KoiLinkExample(raw: RawKoi)
    requires raw.name == "K00142.01" && raw.disp == "CONFIRMED"
    ensures KoiRow(raw).name == "KOI-142.01"
    ensures KoiRow(raw).disp == ConfirmedLabel
    ensures KoiRow(raw).url == KoiUrl + "KOI-142" + KoiUrlTail
  {
    assert KoiRow(raw).name == "KOI-142.01" by {
      RewriteExample(raw.name);
    }
    assert KoiRow(raw).disp == ConfirmedLabel by {
      TitleConfirmed(raw.disp);
    }
    assert KoiRow(raw).url == KoiUrl + "KOI-142" + KoiUrlTail by {
      var name := RewriteK0(raw.name);
      assert name == "KOI-142.01" by {
        RewriteExample(raw.name);
      }
      assert DropLast(name, 3) == "KOI-142" by {
        assert name == "KOI-142" + ".01";
        KoiLinkHost("KOI-142", ".01");
      }
    }
  }
}
