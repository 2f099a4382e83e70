/** The two aggregations numpy applies to a group of duplicate readings:
    `numpy.mean` and `numpy.median`.  Both return NaN for an empty group and for
    a group that holds a NaN, because the code never filters NaN cells.
 */
module Stats {
  import opened Outcomes
  import opened PyValues

  /** No element is NaN. */
  predicate Defined(s: seq<Num>) {
    forall i :: 0 <= i < |s| ==> s[i].Some?
  }

  /** Some element is NaN. */
  predicate HasNaN(s: seq<Num>) {
    exists i :: 0 <= i < |s| && s[i].None?
  }

  /** The finite values of a NaN-free sequence. */
  function Reals(s: seq<Num>): (r: seq<real>)
    requires Defined(s)
    ensures |r| == |s|
    ensures forall i :: 0 <= i < |s| ==> r[i] == s[i].value
  {
    if |s| == 0 then [] else Reals(s[..|s| - 1]) + [s[|s| - 1].value]
  }

  function Sum(s: seq<real>): real {
    if |s| == 0 then 0.0 else Sum(s[..|s| - 1]) + s[|s| - 1]
  }

  /** The smallest element. */
  function Min(s: seq<real>): (m: real)
    requires |s| > 0
    ensures m in s
    ensures forall i :: 0 <= i < |s| ==> m <= s[i]
  {
    if |s| == 1 then s[0]
    else
      var m := Min(s[1..]);
      assert forall i :: 1 <= i < |s| ==> s[i] == s[1..][i - 1];
      if s[0] <= m then s[0] else m
  }

  /** The largest element. */
  function Max(s: seq<real>): (m: real)
    requires |s| > 0
    ensures m in s
    ensures forall i :: 0 <= i < |s| ==> s[i] <= m
  {
    if |s| == 1 then s[0]
    else
      var m := Max(s[1..]);
      assert forall i :: 1 <= i < |s| ==> s[i] == s[1..][i - 1];
      if m <= s[0] then s[0] else m
  }

  /** A sum lies between |s| copies of the bounds of its terms. */
  lemma {:induction false} SumBounds(s: seq<real>, lo: real, hi: real)
    requires forall i :: 0 <= i < |s| ==> lo <= s[i] <= hi
    ensures (|s| as real) * lo <= Sum(s) <= (|s| as real) * hi
  {
    if |s| > 0 {
      SumBounds(s[..|s| - 1], lo, hi);
    }
  }

  /** Dividing by a positive count keeps bounds scaled by that count. */
  lemma QuotientBounds(total: real, n: real, lo: real, hi: real)
    requires n > 0.0 && n * lo <= total <= n * hi
    ensures lo <= total / n <= hi
  {
    assert (total / n) * n == total;
  }

  /** An arithmetic mean lies between any bounds of its terms. */
  lemma MeanBounds(xs: seq<real>, lo: real, hi: real)
    requires |xs| > 0
    requires forall i :: 0 <= i < |xs| ==> lo <= xs[i] <= hi
    ensures lo <= Sum(xs) / (|xs| as real) <= hi
  {
    SumBounds(xs, lo, hi);
    QuotientBounds(Sum(xs), |xs| as real, lo, hi);
  }

  /** `numpy.mean` of a group. */
  function Mean(s: seq<Num>): (r: Num)
    ensures r.Some? <==> |s| > 0 && Defined(s)
    ensures r.Some? ==> Min(Reals(s)) <= r.value <= Max(Reals(s))
  {
    if |s| > 0 && Defined(s) then
      var xs := Reals(s);
      MeanBounds(xs, Min(xs), Max(xs));
      Some(Sum(Reals(s)) / (|s| as real))
    else
      None
  }

  predicate Sorted(s: seq<real>) {
    forall i, j :: 0 <= i < j < |s| ==> s[i] <= s[j]
  }

  /** Inserts `x` into a sorted sequence. */
  function Insert(x: real, s: seq<real>): (r: seq<real>)
    requires Sorted(s)
    ensures Sorted(r)
    ensures multiset(r) == multiset(s) + multiset{x}
    ensures |r| == |s| + 1
  {
    if |s| == 0 then [x]
    else if x <= s[0] then
      ConsSorted(x, s);
      [x] + s
    else
      var t := Insert(x, s[1..]);
      assert s == [s[0]] + s[1..];
      AtLeastHead(s, x, t);
      ConsSorted(s[0], t);
      [s[0]] + t
  }

  /** A sorted sequence stays sorted under a head no larger than its elements. */
  lemma ConsSorted(h: real, t: seq<real>)
    requires Sorted(t) && forall k :: 0 <= k < |t| ==> h <= t[k]
    ensures Sorted([h] + t)
  {
  }

  /** Every element of a permutation of the tail of a sorted `s` plus some
      `x` above its head is at least that head. */
  lemma AtLeastHead(s: seq<real>, x: real, t: seq<real>)
    requires Sorted(s) && |s| > 0 && s[0] < x
    requires multiset(t) == multiset(s[1..]) + multiset{x}
    ensures forall k :: 0 <= k < |t| ==> s[0] <= t[k]
  {
    forall k | 0 <= k < |t| ensures s[0] <= t[k] {
      assert t[k] in multiset(t);
      if t[k] != x {
        assert t[k] in s[1..];
      }
    }
  }

  /** The elements of `s` in ascending order. */
  function Sort(s: seq<real>): (r: seq<real>)
    ensures Sorted(r)
    ensures multiset(r) == multiset(s)
    ensures |r| == |s|
  {
    if |s| == 0 then []
    else
      assert s == s[..|s| - 1] + [s[|s| - 1]];
      Insert(s[|s| - 1], Sort(s[..|s| - 1]))
  }

  /** Every element of a permutation of `s` lies between the bounds of `s`. */
  lemma PermutationBounds(s: seq<real>, t: seq<real>, k: int)
    requires |s| > 0 && multiset(t) == multiset(s) && 0 <= k < |t|
    ensures Min(s) <= t[k] <= Max(s)
  {
    assert t[k] in multiset(s);
    var j :| 0 <= j < |s| && s[j] == t[k];
  }

  /** The middle of a sorted copy of `xs`: the middle element, or the average
      of the two middle elements when `xs` has even length. */
  function MiddleOf(xs: seq<real>): (m: real)
    requires |xs| > 0
    ensures Min(xs) <= m <= Max(xs)
  {
    var t := Sort(xs);
    var n := |t|;
    PermutationBounds(xs, t, n / 2);
    if n % 2 == 1 then t[n / 2]
    else
      PermutationBounds(xs, t, n / 2 - 1);
      (t[n / 2 - 1] + t[n / 2]) / 2.0
  }

  /** `numpy.median` of a group. */
  function Median(s: seq<Num>): (r: Num)
    ensures r.Some? <==> |s| > 0 && Defined(s)
    ensures r.Some? ==> Min(Reals(s)) <= r.value <= Max(Reals(s))
  {
    if |s| > 0 && Defined(s) then Some(MiddleOf(Reals(s))) else None
  }

  /** Both aggregations return the reading itself for a group of one reading. */
  lemma SingletonGroup(a: Num)
    ensures Mean([a]) == a && Median([a]) == a
  {
    if a.Some? {
      assert Reals([a]) == [a.value];
      assert Sum([a.value]) == a.value;
      assert Sort([a.value]) == [a.value];
    }
  }

  lemma SumPair(x: real, y: real)
    ensures Sum([x, y]) == x + y
  {
    assert [x, y][..1] == [x];
    assert [x][..0] == [];
    assert Sum([x]) == Sum([]) + x;
    assert Sum([x, y]) == Sum([x]) + y;
  }

  lemma MiddleOfPair(x: real, y: real)
    ensures MiddleOf([x, y]) == (x + y) / 2.0
  {
    var t := Sort([x, y]);
    assert t == [x, y] || t == [y, x] by {
      SortPair(x, y);
    }
    assert MiddleOf([x, y]) == (t[0] + t[1]) / 2.0;
  }

  lemma SortPair(x: real, y: real)
    ensures Sort([x, y]) == if y <= x then [y, x] else [x, y]
  {
    assert [x, y][..1] == [x];
    assert [x][..0] == [];
    assert Sort([x]) == Insert(x, []) == [x];
    assert Sort([x, y]) == Insert(y, [x]);
  }

  lemma HalfOf(t: real, n: real, u: real)
    requires n == 2.0 && t == u
    ensures t / n == u / 2.0
  {
  }

  lemma MeanOfPair(x: real, y: real)
    ensures Mean([Some(x), Some(y)]) == Some((x + y) / 2.0)
  {
    var s: seq<Num> := [Some(x), Some(y)];
    assert Defined(s);
    assert Reals(s) == [x, y];
    SumPair(x, y);
    HalfOf(Sum(Reals(s)), |s| as real, x + y);
  }

  lemma MedianOfPair(x: real, y: real)
    ensures Median([Some(x), Some(y)]) == Some((x + y) / 2.0)
  {
    RealsOfPair(x, y);
    MiddleOfPair(x, y);
  }

  lemma RealsOfPair(x: real, y: real)
    ensures Defined([Some(x), Some(y)]) && Reals([Some(x), Some(y)]) == [x, y]
  {
    var s: seq<Num> := [Some(x), Some(y)];
    assert s[..1] == [Some(x)];
    assert Reals(s[..1]) == [x];
  }

  /** The two aggregations agree on a group of two readings: both give the
      midpoint, or NaN when either reading is NaN. */
  lemma PairGroup(a: Num, b: Num)
    ensures Mean([a, b]) == Median([a, b])
    ensures a.Some? && b.Some? ==> Mean([a, b]) == Some((a.value + b.value) / 2.0)
  {
    if a.Some? && b.Some? {
      MeanOfPair(a.value, b.value);
      MedianOfPair(a.value, b.value);
    } else {
      assert !Defined([a, b]) by {
        if a.None? { assert [a, b][0].None?; } else { assert [a, b][1].None?; }
      }
    }
  }
}
