/** Small helpers shared by every part of the model: an optional value, the
    minimum of two years, and the two vectorised table queries the scripts use —
    the positions where a row mask holds (`np.where(mask)[0]`) and the number of
    rows where it holds (`mask.sum()`). */
module Common {

  /** A value that may be absent: a NaN cell, an empty selection. */
  datatype Option<T> = None | Some(value: T)

  function Min(a: int, b: int): (m: int)
    ensures m <= a && m <= b
    ensures m == a || m == b
  {
    if a <= b then a else b
  }

  /** The positions of the rows of `s` that satisfy `p`, in increasing order. */
  function Where<T>(s: seq<T>, p: T -> bool): (r: seq<nat>)
    ensures forall k :: 0 <= k < |r| ==> r[k] < |s| && p(s[r[k]])
    ensures forall i :: 0 <= i < |s| && p(s[i]) ==> i in r
    ensures forall k, l :: 0 <= k < l < |r| ==> r[k] < r[l]
    decreases |s|
  {
    if |s| == 0 then []
    else
      var front := Where(s[..|s| - 1], p);
      front + (if p(s[|s| - 1]) then [|s| - 1] else [])
  }

  /** When `Where` finds a single position, no other position satisfies `p`. */
  lemma WhereSingle<T>(s: seq<T>, p: T -> bool, i: nat)
    requires |Where(s, p)| == 1
    requires i < |s| && p(s[i])
    ensures i == Where(s, p)[0]
  {
    assert i in Where(s, p);
  }

  /** When exactly one position satisfies `p`, `Where` finds exactly it. */
  lemma {:induction false} WhereUnique<T>(s: seq<T>, p: T -> bool, j: nat)
    requires j < |s| && p(s[j])
    requires forall i :: 0 <= i < |s| && p(s[i]) ==> i == j
    ensures Where(s, p) == [j]
  {
    var r := Where(s, p);
    assert j in r;
    forall k | 0 <= k < |r| ensures r[k] == j {
      assert p(s[r[k]]);
    }
    IncreasingHead(r);
  }

  lemma IncreasingHead(r: seq<nat>)
    ensures |r| > 1 && (forall k, l :: 0 <= k < l < |r| ==> r[k] < r[l]) ==> r[0] < r[1]
  {
  }

  /** No position satisfies `p` precisely when `Where` is empty. */
  lemma {:induction false} WhereEmpty<T>(s: seq<T>, p: T -> bool)
    ensures Where(s, p) == [] <==> forall i :: 0 <= i < |s| ==> !p(s[i])
  {
    var r := Where(s, p);
    if r != [] {
      assert p(s[r[0]]);
    }
  }

  /** The smallest `vals[i]` over the rows whose `keys[i]` is `key`, as pandas'
      `vals[keys == key].min()`; None for an empty selection, where pandas gives NaN. */
  function GroupMin<K(==)>(keys: seq<K>, vals: seq<int>, key: K): (r: Option<int>)
    requires |keys| == |vals|
    ensures r.None? <==> forall i :: 0 <= i < |keys| ==> keys[i] != key
    ensures r.Some? ==> exists i :: 0 <= i < |keys| && keys[i] == key && vals[i] == r.value
    ensures r.Some? ==> forall i :: 0 <= i < |keys| && keys[i] == key ==> r.value <= vals[i]
    decreases |keys|
  {
    if |keys| == 0 then None
    else
      var rest := GroupMin(keys[1..], vals[1..], key);
      assert forall i :: 1 <= i < |keys| ==> keys[i] == keys[1..][i - 1] && vals[i] == vals[1..][i - 1];
      if keys[0] != key then rest
      else
        match rest
        case None => Some(vals[0])
        case Some(m) => Some(Min(vals[0], m))
  }

  /** The group minimum only depends on the values inside the group. */
  lemma GroupMinLocal<K>(keys: seq<K>, a: seq<int>, b: seq<int>, key: K)
    requires |keys| == |a| == |b|
    requires forall i :: 0 <= i < |keys| && keys[i] == key ==> a[i] == b[i]
    ensures GroupMin(keys, a, key) == GroupMin(keys, b, key)
  {
    var ra, rb := GroupMin(keys, a, key), GroupMin(keys, b, key);
    if ra.Some? {
      var i :| 0 <= i < |keys| && keys[i] == key && a[i] == ra.value;
      var k :| 0 <= k < |keys| && keys[k] == key && b[k] == rb.value;
      assert ra.value <= a[k] && rb.value <= b[i];
    }
  }

  /** A group whose rows all hold `v` has minimum `v`. */
  lemma GroupMinConst<K>(keys: seq<K>, vals: seq<int>, key: K, v: int)
    requires |keys| == |vals|
    requires forall i :: 0 <= i < |keys| && keys[i] == key ==> vals[i] == v
    ensures GroupMin(keys, vals, key).Some? ==> GroupMin(keys, vals, key).value == v
  {
  }

  /** The number of indices below `n` that satisfy `p`. */
  function CountBelow(n: nat, p: nat -> bool): (c: nat)
    ensures c <= n
  {
    if n == 0 then 0 else CountBelow(n - 1, p) + (if p(n - 1) then 1 else 0)
  }

  /** Counting over a union of disjoint predicates adds up the counts. */
  lemma {:induction false} CountBelowSplit(n: nat, p: nat -> bool, q: nat -> bool, both: nat -> bool)
    requires forall i: nat :: i < n ==> (both(i) <==> p(i) || q(i))
    requires forall i: nat :: i < n ==> !(p(i) && q(i))
    ensures CountBelow(n, both) == CountBelow(n, p) + CountBelow(n, q)
  {
    if n > 0 {
      CountBelowSplit(n - 1, p, q, both);
    }
  }

  /** Two predicates that agree below `n` count the same. */
  lemma {:induction false} CountBelowSame(n: nat, p: nat -> bool, q: nat -> bool)
    requires forall i: nat :: i < n ==> (p(i) <==> q(i))
    ensures CountBelow(n, p) == CountBelow(n, q)
  {
    if n > 0 {
      CountBelowSame(n - 1, p, q);
    }
  }

  /** `s[0] + ... + s[n-1]`. */
  function Sum(s: seq<nat>, n: nat): nat
    requires n <= |s|
  {
    if n == 0 then 0 else Sum(s, n - 1) + s[n - 1]
  }

  /** A running sum over counts never decreases. */
  lemma {:induction false} SumMonotone(s: seq<nat>, m: nat, n: nat)
    requires m <= n <= |s|
    ensures Sum(s, m) <= Sum(s, n)
  {
    if m < n {
      SumMonotone(s, m, n - 1);
    }
  }
}
