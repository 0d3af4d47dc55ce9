/** The KOI name rewrite `replace(to_replace='K0+', value='KOI-', regex=True)`
    shared by utils.py:79 (the current KOI table) and
    scripts/test_data.py:121 (the archived KOI tables): every 'K' followed by
    one or more '0's, scanning left to right, becomes "KOI-", so the archive
    form K00142.01 becomes the display form KOI-142.01. */
module KoiNames {

  /** The string without its leading run of '0's. */
  function DropZeros(s: string): (r: string)
    ensures |r| <= |s| && r == s[|s| - |r|..]
    ensures |r| > 0 ==> r[0] != '0'
    ensures forall k :: 0 <= k < |s| - |r| ==> s[k] == '0'
    decreases |s|
  {
    if |s| > 0 && s[0] == '0' then DropZeros(s[1..]) else s
  }

  /** No 'K' directly followed by '0': nothing left for the pattern to match. */
  predicate NoK0(s: string) {
    forall k :: 0 <= k < |s| - 1 ==> !(s[k] == 'K' && s[k + 1] == '0')
  }

  /** The regular-expression rewrite `K0+` -> `KOI-`. Its result has no match
      of the pattern left, and a string without a match is left alone. */
  function RewriteK0(s: string): (r: string)
    ensures |s| > 0 ==> |r| > 0 && r[0] == s[0]
    ensures NoK0(r)
    ensures NoK0(s) ==> r == s
    decreases |s|
  {
    if |s| >= 2 && s[0] == 'K' && s[1] == '0' then
      var rest := RewriteK0(DropZeros(s[1..]));
      NoK0Join("KOI-", rest);
      "KOI-" + rest
    else if |s| == 0 then s
    else
      var rest := RewriteK0(s[1..]);
      NoK0Join([s[0]], rest);
      assert NoK0(s) ==> NoK0(s[1..]) && rest == s[1..] && s == [s[0]] + s[1..];
      [s[0]] + rest
  }

  /** Joining two strings free of the pattern leaves it free, unless the
      join itself puts a 'K' before a '0'. */
  lemma NoK0Join(a: string, b: string)
    requires NoK0(a) && NoK0(b)
    requires |a| > 0 && |b| > 0 ==> !(a[|a| - 1] == 'K' && b[0] == '0')
    ensures NoK0(a + b)
  {
    var c := a + b;
    forall k | 0 <= k < |c| - 1 ensures !(c[k] == 'K' && c[k + 1] == '0') {
      if k + 1 < |a| {
        assert c[k] == a[k] && c[k + 1] == a[k + 1];
      } else if k >= |a| {
        assert c[k] == b[k - |a|] && c[k + 1] == b[k + 1 - |a|];
      }
    }
  }

  /** Rewriting twice is rewriting once. */
  lemma RewriteIdempotent(s: string)
    ensures RewriteK0(RewriteK0(s)) == RewriteK0(s)
  {
  }

  /** The archive form of KOI 142.01 becomes its display form. */
  lemma RewriteExample(s: string)
    requires s == "K00142.01"
    ensures RewriteK0(s) == "KOI-142.01"
  {
    var tail := s[1..];
    assert tail == "00142.01";
    RewriteHead(s);
    var digits := ZerosOf142(tail);
    DigitsOf142(digits);
    assert "KOI-" + digits == "KOI-142.01";
  }

  /** One step of the rewrite at a leading match. */
  lemma RewriteHead(s: string)
    requires |s| >= 2 && s[0] == 'K' && s[1] == '0'
    ensures RewriteK0(s) == "KOI-" + RewriteK0(DropZeros(s[1..]))
  {
  }

  lemma ZerosOf142(t: string) returns (d: string)
    requires t == "00142.01"
    ensures d == "142.01" && DropZeros(t) == d
  {
    assert t[0] == '0' && t[1..] == "0142.01";
    var u := t[1..];
    assert u[0] == '0' && u[1..] == "142.01";
    d := u[1..];
    assert d[0] != '0';
  }

  lemma DigitsOf142(d: string)
    requires d == "142.01"
    ensures RewriteK0(d) == d
  {
    assert forall k :: 0 <= k < |d| ==> d[k] != 'K';
  }
}
