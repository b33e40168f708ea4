/** Optional values, sequences without repetitions, the sizes of sets, and sums. */
module Lists {
  datatype Option<+T> = None | Some(value: T)

  /** The first element, if there is one. */
  ghost function Head<T>(s: seq<T>): Option<T> { if s == [] then None else Some(s[0]) }

  ghost predicate Distinct<T>(s: seq<T>) {
    forall i, j :: 0 <= i < j < |s| ==> s[i] != s[j]
  }

  lemma DistinctJoin<T>(s: seq<T>, t: seq<T>)
    requires Distinct(s) && Distinct(t) && forall x :: x in s ==> x !in t
    ensures Distinct(s + t)
  {
    forall i, j | 0 <= i < j < |s + t|
      ensures (s + t)[i] != (s + t)[j]
    {
      if i < |s| <= j { assert s[i] in s && t[j - |s|] in t; }
    }
  }

  lemma NotTwice<T>(s: seq<T>, k: nat)
    requires Distinct(s) && k < |s|
    ensures s[k] !in s[..k] && s[k] !in s[k + 1..] && Distinct(s[..k] + s[k + 1..])
  {
  }

  lemma DistinctCons<T>(x: T, s: seq<T>)
    requires Distinct(s) && x !in s
    ensures Distinct([x] + s)
  {
  }

  lemma {:induction false} SubsetSize<T>(s: set<T>, t: set<T>)
    requires s <= t
    ensures |s| <= |t|
  {
    if s != {} {
      var x :| x in s;
      SubsetSize(s - {x}, t - {x});
    }
  }

  /** The sum of the values of a map. */
  ghost function Sum<T>(m: map<T, nat>): nat {
    if m == map[] then 0
    else
      var x :| x in m;
      m[x] + Sum(m - {x})
  }

  /** Whichever value is added first. */
  lemma {:induction false} SumLess<T>(m: map<T, nat>, x: T)
    requires x in m
    ensures Sum(m) == m[x] + Sum(m - {x})
    decreases |m.Keys|
  {
    var y :| y in m && Sum(m) == m[y] + Sum(m - {y});
    if y != x {
      assert (m - {y}).Keys < m.Keys && (m - {x}).Keys < m.Keys;
      SubsetSmaller((m - {y}).Keys, m.Keys, y);
      SubsetSmaller((m - {x}).Keys, m.Keys, x);
      SumLess(m - {y}, x);
      SumLess(m - {x}, y);
      assert m - {y} - {x} == m - {x} - {y};
    }
  }

  lemma SubsetSmaller<T>(s: set<T>, t: set<T>, x: T)
    requires s == t - {x} && x in t
    ensures |s| < |t|
  {
  }

  lemma SumMore<T>(m: map<T, nat>, x: T, n: nat)
    requires x !in m
    ensures Sum(m[x := n]) == Sum(m) + n
  {
    SumLess(m[x := n], x);
    assert m[x := n] - {x} == m;
  }
}
