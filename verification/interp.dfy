/** Construction and evaluation of the piecewise-linear interpolant that the
    hardness converter builds for every pair of scales (`interpolate` in
    substance/hardness.py).

    Construction: the distinct finite source values become the knots in
    ascending order (`numpy.unique`); the target readings of the rows that share
    a knot are aggregated by mean or median; NaN cells are never filtered.

    Evaluation follows scipy's `interp1d(kind=1, bounds_error=False,
    fill_value=nan)`, an order-1 spline: a query below the first or above the
    last knot gives NaN; inside, the query is evaluated on the knot interval
    `[x[i], x[i+1])` that contains it (the last interval is closed), and the
    result is NaN when either end of that interval carries NaN.
 */
module Interp {
  import opened Outcomes
  import opened PyValues
  import Stats

  predicate StrictlyIncreasing(xs: seq<real>) {
    forall i, j :: 0 <= i < j < |xs| ==> xs[i] < xs[j]
  }

  /** Inserts `x` into a strictly increasing sequence unless it is already there. */
  function InsertKnot(x: real, ks: seq<real>): (r: seq<real>)
    requires StrictlyIncreasing(ks)
    ensures StrictlyIncreasing(r)
    ensures forall v :: v in r <==> v == x || v in ks
  {
    if |ks| == 0 then [x]
    else if x < ks[0] then [x] + ks
    else if x == ks[0] then ks
    else
      var t := InsertKnot(x, ks[1..]);
      assert ks == [ks[0]] + ks[1..];
      assert forall v :: v in t ==> ks[0] < v;
      assert forall k :: 0 <= k < |t| ==> t[k] in t;
      [ks[0]] + t
  }

  /** `numpy.unique` of a source column, restricted to its finite cells: the
      distinct values, ascending.  (NaN cells are handled by `HasNaN`.) */
  function Knots(col: seq<Num>): (ks: seq<real>)
    ensures StrictlyIncreasing(ks)
    ensures forall v :: v in ks <==> Some(v) in col
  {
    if |col| == 0 then []
    else
      var init := col[..|col| - 1];
      assert col == init + [col[|col| - 1]];
      match col[|col| - 1]
      case None => Knots(init)
      case Some(x) => InsertKnot(x, Knots(init))
  }

  /** `y_data[x_data == k]`: the targets of the rows whose source reading is
      `k`, in row order. */
  function Group(xcol: seq<Num>, ycol: seq<Num>, k: real): seq<Num>
    requires |xcol| == |ycol|
  {
    if |xcol| == 0 then []
    else
      var n := |xcol| - 1;
      Group(xcol[..n], ycol[..n], k) + (if xcol[n] == Some(k) then [ycol[n]] else [])
  }

  /** The members of a group are exactly the targets of the matching rows. */
  lemma {:induction false} GroupMembers(xcol: seq<Num>, ycol: seq<Num>, k: real)
    requires |xcol| == |ycol|
    ensures forall y :: y in Group(xcol, ycol, k) <==>
      exists j :: 0 <= j < |xcol| && xcol[j] == Some(k) && ycol[j] == y
    ensures |Group(xcol, ycol, k)| > 0 <==> Some(k) in xcol
  {
    if |xcol| > 0 {
      var n := |xcol| - 1;
      GroupMembers(xcol[..n], ycol[..n], k);
      assert xcol == xcol[..n] + [xcol[n]];
      forall y | (exists j :: 0 <= j < |xcol| && xcol[j] == Some(k) && ycol[j] == y)
        ensures y in Group(xcol, ycol, k)
      {
        var j :| 0 <= j < |xcol| && xcol[j] == Some(k) && ycol[j] == y;
        if j < n {
          assert xcol[..n][j] == Some(k) && ycol[..n][j] == y;
        }
      }
      if Some(k) in xcol {
        var j :| 0 <= j < |xcol| && xcol[j] == Some(k);
        assert ycol[j] in Group(xcol, ycol, k);
      }
    }
  }

  /** Grouping a table split in two: the groups of the halves, in row order. */
  lemma {:induction false} GroupAppend(x1: seq<Num>, y1: seq<Num>, x2: seq<Num>, y2: seq<Num>, k: real)
    requires |x1| == |y1| && |x2| == |y2|
    ensures Group(x1 + x2, y1 + y2, k) == Group(x1, y1, k) + Group(x2, y2, k)
    decreases |x2|
  {
    if |x2| > 0 {
      var n := |x2| - 1;
      GroupAppend(x1, y1, x2[..n], y2[..n], k);
      assert (x1 + x2)[..|x1| + n] == x1 + x2[..n];
      assert (y1 + y2)[..|y1| + n] == y1 + y2[..n];
    } else {
      assert x1 + x2 == x1 && y1 + y2 == y1;
    }
  }

  predicate IsStrategy(strategy: string) {
    strategy == "mean" || strategy == "median"
  }

  /** The aggregation named by `strategy`. */
  function Aggregate(strategy: string, g: seq<Num>): Num
    requires IsStrategy(strategy)
  {
    if strategy == "mean" then Stats.Mean(g) else Stats.Median(g)
  }

  /** The interpolant: knots `xs` strictly increasing with values `ys`.
      `nanKnot` records that the source column had a NaN cell, which
      `numpy.unique` keeps as one more knot after the finite ones. */
  datatype Interpolant = Interpolant(xs: seq<real>, ys: seq<Num>, nanKnot: bool) {
    predicate Valid() {
      StrictlyIncreasing(xs) && |ys| == |xs| && (|xs| >= 2 || nanKnot)
    }
  }

  /** Knots and aggregated values of a pair of columns. */
  function Assemble(xcol: seq<Num>, ycol: seq<Num>, strategy: string): Interpolant
    requires |xcol| == |ycol| && IsStrategy(strategy)
  {
    var ks := Knots(xcol);
    Interpolant(ks, KnotValues(xcol, ycol, strategy, ks), Stats.HasNaN(xcol))
  }

  /** `[strategy(y_data[x_data == k]) for k in ks]`: one aggregate per knot. */
  function KnotValues(xcol: seq<Num>, ycol: seq<Num>, strategy: string, ks: seq<real>): (ys: seq<Num>)
    requires |xcol| == |ycol| && IsStrategy(strategy)
    ensures |ys| == |ks|
  {
    if |ks| == 0 then []
    else KnotValues(xcol, ycol, strategy, ks[..|ks| - 1]) + [Aggregate(strategy, Group(xcol, ycol, ks[|ks| - 1]))]
  }

  /** The value listed for a knot aggregates the group of that knot. */
  lemma {:induction false} KnotValuesAt(xcol: seq<Num>, ycol: seq<Num>, strategy: string, ks: seq<real>, i: int)
    requires |xcol| == |ycol| && IsStrategy(strategy) && 0 <= i < |ks|
    ensures KnotValues(xcol, ycol, strategy, ks)[i] == Aggregate(strategy, Group(xcol, ycol, ks[i]))
    decreases |ks|
  {
    if i < |ks| - 1 {
      KnotValuesAt(xcol, ycol, strategy, ks[..|ks| - 1], i);
    }
  }

  /** `interpolate(x, y, strategy, kind=1)`: an unknown strategy leaves
      `y_unique` unbound; scipy refuses fewer than two abscissae, counting the
      NaN one. */
  function Build(xcol: seq<Num>, ycol: seq<Num>, strategy: string): (r: Result<Interpolant>)
    requires |xcol| == |ycol|
    ensures r.Err? <==> !IsStrategy(strategy) || |Knots(xcol)| + (if Stats.HasNaN(xcol) then 1 else 0) < 2
    ensures !IsStrategy(strategy) ==> r == Err(UnboundLocalError)
    ensures r.Ok? ==> r.value.Valid()
  {
    if !IsStrategy(strategy) then Err(UnboundLocalError)
    else if |Knots(xcol)| + (if Stats.HasNaN(xcol) then 1 else 0) < 2 then Err(ValueError)
    else Ok(Assemble(xcol, ycol, strategy))
  }

  /** The knots of a built interpolant are exactly the distinct finite source
      readings, ascending, each once; the NaN knot is there exactly when the
      source column has a NaN cell. */
  lemma BuildKnots(xcol: seq<Num>, ycol: seq<Num>, strategy: string)
    requires |xcol| == |ycol| && Build(xcol, ycol, strategy).Ok?
    ensures var f := Build(xcol, ycol, strategy).value;
      && StrictlyIncreasing(f.xs)
      && (forall v :: v in f.xs <==> Some(v) in xcol)
      && (f.nanKnot <==> exists j :: 0 <= j < |xcol| && xcol[j].None?)
  {
  }

  /** The aggregate of a non-empty group is missing exactly when a member is
      missing, and otherwise lies between two of its members. */
  lemma AggregateBounds(strategy: string, g: seq<Num>)
    requires IsStrategy(strategy) && |g| > 0
    ensures Aggregate(strategy, g).None? <==> exists m :: 0 <= m < |g| && g[m].None?
    ensures Aggregate(strategy, g).Some? ==>
      && (exists m :: 0 <= m < |g| && g[m].Some? && g[m].value <= Aggregate(strategy, g).value)
      && (exists m :: 0 <= m < |g| && g[m].Some? && Aggregate(strategy, g).value <= g[m].value)
  {
    var r := Aggregate(strategy, g);
    if r.Some? {
      var xs := Stats.Reals(g);
      var a :| 0 <= a < |xs| && xs[a] == Stats.Min(xs);
      var b :| 0 <= b < |xs| && xs[b] == Stats.Max(xs);
      assert g[a].Some? && g[a].value <= r.value;
      assert g[b].Some? && r.value <= g[b].value;
    }
  }

  /** The aggregate of the group of a source reading that occurs in the
      column is missing exactly when one of its rows has a missing target, and
      otherwise lies between the targets of two of its rows. */
  lemma GroupAggregate(xcol: seq<Num>, ycol: seq<Num>, strategy: string, k: real)
    requires |xcol| == |ycol| && IsStrategy(strategy) && Some(k) in xcol
    ensures var r := Aggregate(strategy, Group(xcol, ycol, k));
      && (r.None? <==> exists j :: 0 <= j < |xcol| && xcol[j] == Some(k) && ycol[j].None?)
      && (r.Some? ==>
            (exists j :: 0 <= j < |xcol| && xcol[j] == Some(k) && ycol[j].Some? && ycol[j].value <= r.value)
            && (exists j :: 0 <= j < |xcol| && xcol[j] == Some(k) && ycol[j].Some? && r.value <= ycol[j].value))
  {
    var g := Group(xcol, ycol, k);
    var r := Aggregate(strategy, g);
    GroupMembers(xcol, ycol, k);
    AggregateBounds(strategy, g);
    if r.None? {
      var m :| 0 <= m < |g| && g[m].None?;
      assert g[m] in g;
    } else {
      var a :| 0 <= a < |g| && g[a].Some? && g[a].value <= r.value;
      var b :| 0 <= b < |g| && g[b].Some? && r.value <= g[b].value;
      assert g[a] in g && g[b] in g;
      forall j | 0 <= j < |xcol| && xcol[j] == Some(k) ensures ycol[j].Some? {
        assert ycol[j] in g;
      }
    }
  }

  /** The value at a knot is missing exactly when some row with that source
      reading has a missing target; otherwise it lies between the targets of
      two rows with that source reading. */
  lemma BuildValues(xcol: seq<Num>, ycol: seq<Num>, strategy: string, i: int)
    requires |xcol| == |ycol| && Build(xcol, ycol, strategy).Ok?
    requires 0 <= i < |Build(xcol, ycol, strategy).value.xs|
    ensures var f := Build(xcol, ycol, strategy).value;
      && (f.ys[i].None? <==> exists j :: 0 <= j < |xcol| && xcol[j] == Some(f.xs[i]) && ycol[j].None?)
      && (f.ys[i].Some? ==>
            (exists j :: 0 <= j < |xcol| && xcol[j] == Some(f.xs[i]) && ycol[j].Some? && ycol[j].value <= f.ys[i].value)
            && (exists j :: 0 <= j < |xcol| && xcol[j] == Some(f.xs[i]) && ycol[j].Some? && f.ys[i].value <= ycol[j].value))
  {
    var f := Build(xcol, ycol, strategy).value;
    KnotValue(xcol, ycol, strategy, i);
    assert f.xs[i] in f.xs;
    GroupAggregate(xcol, ycol, strategy, f.xs[i]);
  }

  function Last(xs: seq<real>): real
    requires |xs| > 0
  {
    xs[|xs| - 1]
  }

  /** The knot interval scipy's spline evaluates `q` on, searching upward from
      `i`: the last index `j <= |xs| - 2` with `xs[j] <= q`. */
  function Segment(xs: seq<real>, q: real, i: nat): (j: nat)
    requires |xs| >= 2 && i <= |xs| - 2 && xs[i] <= q
    ensures i <= j <= |xs| - 2 && xs[j] <= q
    ensures j < |xs| - 2 ==> q < xs[j + 1]
    decreases |xs| - i
  {
    if i + 2 < |xs| && xs[i + 1] <= q then Segment(xs, q, i + 1) else i
  }

  /** The straight line through `(x0, y0)` and `(x1, y1)` at `q`. */
  function Lerp(x0: real, y0: real, x1: real, y1: real, q: real): real
    requires x0 < x1
  {
    y0 + (y1 - y0) * ((q - x0) / (x1 - x0))
  }

  /** Evaluation of the interpolant at a query (NaN query gives NaN). */
  function Eval(f: Interpolant, q: Num): (r: Num)
    requires f.Valid()
    ensures r.Some? ==> q.Some? && |f.xs| >= 2 && f.xs[0] <= q.value <= Last(f.xs)
  {
    if q.None? || |f.xs| < 2 then None
    else if q.value < f.xs[0] || Last(f.xs) < q.value then None
    else
      var i := Segment(f.xs, q.value, 0);
      if f.ys[i].Some? && f.ys[i + 1].Some? then
        Some(Lerp(f.xs[i], f.ys[i].value, f.xs[i + 1], f.ys[i + 1].value, q.value))
      else None
  }

  /** A quotient `a / d` with `0 <= a <= d` lies in the unit interval. */
  lemma UnitFraction(a: real, d: real)
    requires d > 0.0 && 0.0 <= a <= d
    ensures 0.0 <= a / d <= 1.0
  {
    assert (a / d) * d == a;
  }

  /** Scaling a non-negative amount by a unit fraction stays within it. */
  lemma ScaleWithin(a: real, t: real)
    requires a >= 0.0 && 0.0 <= t <= 1.0
    ensures 0.0 <= a * t <= a
  {
    assert a * (1.0 - t) >= 0.0;
  }

  /** The line passes through both of its end points. */
  lemma LerpEnds(x0: real, y0: real, x1: real, y1: real)
    requires x0 < x1
    ensures Lerp(x0, y0, x1, y1, x0) == y0 && Lerp(x0, y0, x1, y1, x1) == y1
  {
    var d := x1 - x0;
    assert (x1 - x0) / d == 1.0 by {
      assert (x1 - x0) / d * d == d;
    }
    assert (x0 - x0) / d == 0.0;
  }

  /** The line stays between its end values over its interval. */
  lemma LerpBounds(x0: real, y0: real, x1: real, y1: real, q: real)
    requires x0 < x1 && x0 <= q <= x1
    ensures (y0 <= y1 ==> y0 <= Lerp(x0, y0, x1, y1, q) <= y1)
    ensures (y1 <= y0 ==> y1 <= Lerp(x0, y0, x1, y1, q) <= y0)
  {
    var t := (q - x0) / (x1 - x0);
    UnitFraction(q - x0, x1 - x0);
    if y0 <= y1 {
      ScaleWithin(y1 - y0, t);
    } else {
      ScaleWithin(y0 - y1, t);
      assert (y1 - y0) * t == -((y0 - y1) * t);
    }
  }

  /** `Segment` finds the one interval that contains `q`. */
  lemma SegmentOf(xs: seq<real>, q: real, i: int)
    requires |xs| >= 2 && StrictlyIncreasing(xs)
    requires 0 <= i <= |xs| - 2 && xs[i] <= q && (i == |xs| - 2 || q < xs[i + 1])
    ensures Segment(xs, q, 0) == i
  {
    var j := Segment(xs, q, 0);
  }

  /** Inside the interval `[x[i], x[i+1])` (closed for the last interval) the
      interpolant lies between the two knot values when both are defined, and is
      missing when either is missing. */
  lemma EvalInSegment(f: Interpolant, i: int, q: real)
    requires f.Valid() && 0 <= i < |f.xs| - 1
    requires f.xs[i] <= q && (q < f.xs[i + 1] || i == |f.xs| - 2)
    requires q <= f.xs[i + 1]
    ensures f.ys[i].Some? && f.ys[i + 1].Some? ==>
      var r := Eval(f, Some(q));
      && r.Some?
      && (f.ys[i].value <= f.ys[i + 1].value ==> f.ys[i].value <= r.value <= f.ys[i + 1].value)
      && (f.ys[i + 1].value <= f.ys[i].value ==> f.ys[i + 1].value <= r.value <= f.ys[i].value)
    ensures f.ys[i].None? || f.ys[i + 1].None? ==> Eval(f, Some(q)).None?
  {
    SegmentOf(f.xs, q, i);
    assert f.xs[0] <= f.xs[i] && f.xs[i + 1] <= Last(f.xs);
    if f.ys[i].Some? && f.ys[i + 1].Some? {
      LerpBounds(f.xs[i], f.ys[i].value, f.xs[i + 1], f.ys[i + 1].value, q);
    }
  }

  /** At a knot the interpolant returns the knot's own value, provided the
      interval it is evaluated on (the one to its right; for the last knot, the
      one to its left) has both values defined. */
  lemma EvalAtKnot(f: Interpolant, i: int)
    requires f.Valid() && |f.xs| >= 2 && 0 <= i < |f.xs|
    requires i < |f.xs| - 1 ==> f.ys[i].Some? && f.ys[i + 1].Some?
    requires i == |f.xs| - 1 ==> f.ys[i - 1].Some? && f.ys[i].Some?
    ensures Eval(f, Some(f.xs[i])) == f.ys[i]
  {
    if i < |f.xs| - 1 {
      SegmentOf(f.xs, f.xs[i], i);
      assert f.xs[0] <= f.xs[i] <= Last(f.xs);
      LerpEnds(f.xs[i], f.ys[i].value, f.xs[i + 1], f.ys[i + 1].value);
    } else {
      SegmentOf(f.xs, f.xs[i], i - 1);
      assert f.xs[0] <= f.xs[i];
      LerpEnds(f.xs[i - 1], f.ys[i - 1].value, f.xs[i], f.ys[i].value);
    }
  }

  /** Two distinct finite source readings are enough for `interp1d` to accept
      the pair of columns. */
  lemma TwoReadingsBuild(xcol: seq<Num>, ycol: seq<Num>, strategy: string, a: real, b: real)
    requires |xcol| == |ycol| && IsStrategy(strategy)
    requires Some(a) in xcol && Some(b) in xcol && a != b
    ensures Build(xcol, ycol, strategy).Ok?
  {
    var ks := Knots(xcol);
    assert a in ks && b in ks;
  }

  /** Two members of a strictly increasing sequence with no member strictly
      between them are adjacent. */
  lemma Adjacent(xs: seq<real>, k: real, k2: real) returns (i: int)
    requires StrictlyIncreasing(xs) && k in xs && k2 in xs && k < k2
    requires forall v :: v in xs ==> !(k < v < k2)
    ensures 0 <= i < |xs| - 1 && xs[i] == k && xs[i + 1] == k2
  {
    i :| 0 <= i < |xs| && xs[i] == k;
    var i2 :| 0 <= i2 < |xs| && xs[i2] == k2;
    assert i < i2;
    assert xs[i + 1] in xs;
  }

  /** Two source readings with no reading strictly between them are
      consecutive knots. */
  lemma NextKnot(xcol: seq<Num>, ycol: seq<Num>, strategy: string, k: real, k2: real) returns (i: int)
    requires |xcol| == |ycol| && Build(xcol, ycol, strategy).Ok?
    requires Some(k) in xcol && Some(k2) in xcol && k < k2
    requires forall j :: 0 <= j < |xcol| && xcol[j].Some? ==> !(k < xcol[j].value < k2)
    ensures var f := Build(xcol, ycol, strategy).value;
      0 <= i < |f.xs| - 1 && f.xs[i] == k && f.xs[i + 1] == k2
  {
    var xs := Build(xcol, ycol, strategy).value.xs;
    BuildKnots(xcol, ycol, strategy);
    NoKnotBetween(xs, xcol, k, k2);
    i := Adjacent(xs, k, k2);
  }

  /** Knots drawn from a column with no reading strictly between `k` and
      `k2` have no knot there either. */
  lemma NoKnotBetween(xs: seq<real>, xcol: seq<Num>, k: real, k2: real)
    requires forall v :: v in xs <==> Some(v) in xcol
    requires forall j :: 0 <= j < |xcol| && xcol[j].Some? ==> !(k < xcol[j].value < k2)
    ensures forall v :: v in xs ==> !(k < v < k2)
  {
    forall v | v in xs ensures !(k < v < k2) {
      var j :| 0 <= j < |xcol| && xcol[j] == Some(v);
    }
  }

  /** The value at a knot aggregates the targets of the rows with that reading. */
  lemma KnotValue(xcol: seq<Num>, ycol: seq<Num>, strategy: string, i: int)
    requires |xcol| == |ycol| && Build(xcol, ycol, strategy).Ok?
    requires 0 <= i < |Build(xcol, ycol, strategy).value.xs|
    ensures var f := Build(xcol, ycol, strategy).value;
      f.ys[i] == Aggregate(strategy, Group(xcol, ycol, f.xs[i]))
  {
    KnotValuesAt(xcol, ycol, strategy, Knots(xcol), i);
  }

  /** A source reading converts to the aggregate of its own rows' targets,
      provided the next larger reading has no missing target (scipy evaluates
      a knot on the interval to its right). */
  lemma {:induction false} EvalAtReading(xcol: seq<Num>, ycol: seq<Num>, strategy: string, k: real, k2: real)
    requires |xcol| == |ycol| && Build(xcol, ycol, strategy).Ok?
    requires Some(k) in xcol && Some(k2) in xcol && k < k2
    requires forall j :: 0 <= j < |xcol| && xcol[j].Some? ==> !(k < xcol[j].value < k2)
    requires forall j :: 0 <= j < |xcol| && xcol[j] == Some(k2) ==> ycol[j].Some?
    ensures Eval(Build(xcol, ycol, strategy).value, Some(k)) == Aggregate(strategy, Group(xcol, ycol, k))
  {
    var i := NextKnot(xcol, ycol, strategy, k, k2);
    EvalAtKnotIndex(xcol, ycol, strategy, i);
  }

  /** The knot `i`, when the knot after it has no missing target, evaluates to
      the aggregate of its own group. */
  lemma EvalAtKnotIndex(xcol: seq<Num>, ycol: seq<Num>, strategy: string, i: int)
    requires |xcol| == |ycol| && Build(xcol, ycol, strategy).Ok?
    requires 0 <= i < |Build(xcol, ycol, strategy).value.xs| - 1
    requires var k2 := Build(xcol, ycol, strategy).value.xs[i + 1];
      forall j :: 0 <= j < |xcol| && xcol[j] == Some(k2) ==> ycol[j].Some?
    ensures var f := Build(xcol, ycol, strategy).value;
      Eval(f, Some(f.xs[i])) == Aggregate(strategy, Group(xcol, ycol, f.xs[i]))
  {
    var f := Build(xcol, ycol, strategy).value;
    assert Eval(f, Some(f.xs[i])) == f.ys[i] by {
      BuildValues(xcol, ycol, strategy, i + 1);
      EvalAtInnerKnot(f, i);
    }
    KnotValue(xcol, ycol, strategy, i);
  }

  /** At an inner knot whose right neighbour has a value, the interpolant
      returns the knot's own value, NaN included. */
  lemma EvalAtInnerKnot(f: Interpolant, i: int)
    requires f.Valid() && 0 <= i < |f.xs| - 1 && f.ys[i + 1].Some?
    ensures Eval(f, Some(f.xs[i])) == f.ys[i]
  {
    if f.ys[i].Some? {
      EvalAtKnot(f, i);
    } else {
      EvalInSegment(f, i, f.xs[i]);
    }
  }

  /** At the last knot, whose left neighbour has a value, the interpolant
      returns the knot's own value, NaN included. */
  lemma EvalAtLastKnot(f: Interpolant, i: int)
    requires f.Valid() && 1 <= i == |f.xs| - 1 && f.ys[i - 1].Some?
    ensures Eval(f, Some(f.xs[i])) == f.ys[i]
  {
    if f.ys[i].Some? {
      EvalAtKnot(f, i);
    } else {
      EvalInSegment(f, i - 1, f.xs[i]);
    }
  }

  /** The largest finite source reading is the last knot. */
  lemma LargestKnot(xcol: seq<Num>, ycol: seq<Num>, strategy: string, k: real)
    requires |xcol| == |ycol| && Build(xcol, ycol, strategy).Ok?
    requires Some(k) in xcol
    requires forall j :: 0 <= j < |xcol| && xcol[j].Some? ==> xcol[j].value <= k
    ensures var f := Build(xcol, ycol, strategy).value;
      |f.xs| > 0 && Last(f.xs) == k
  {
    var f := Build(xcol, ycol, strategy).value;
    BuildKnots(xcol, ycol, strategy);
    assert k in f.xs;
    var last := f.xs[|f.xs| - 1];
    assert last in f.xs;
  }

  /** The largest source reading converts to the aggregate of its own rows'
      targets (on the interval to its left), provided the reading below it has
      no missing target. */
  lemma {:induction false} EvalAtLargestReading(xcol: seq<Num>, ycol: seq<Num>, strategy: string, k0: real, k: real)
    requires |xcol| == |ycol| && Build(xcol, ycol, strategy).Ok?
    requires Some(k0) in xcol && Some(k) in xcol && k0 < k
    requires forall j :: 0 <= j < |xcol| && xcol[j].Some? ==> xcol[j].value <= k0 || xcol[j].value == k
    requires forall j :: 0 <= j < |xcol| && xcol[j] == Some(k0) ==> ycol[j].Some?
    ensures Eval(Build(xcol, ycol, strategy).value, Some(k)) == Aggregate(strategy, Group(xcol, ycol, k))
  {
    var i := NextKnot(xcol, ycol, strategy, k0, k);
    assert i + 1 == |Build(xcol, ycol, strategy).value.xs| - 1 by {
      LargestKnot(xcol, ycol, strategy, k);
    }
    EvalAtLastIndex(xcol, ycol, strategy, i + 1);
  }

  /** The last knot, when the knot before it has no missing target, evaluates
      to the aggregate of its own group. */
  lemma EvalAtLastIndex(xcol: seq<Num>, ycol: seq<Num>, strategy: string, i: int)
    requires |xcol| == |ycol| && Build(xcol, ycol, strategy).Ok?
    requires 1 <= i == |Build(xcol, ycol, strategy).value.xs| - 1
    requires var k0 := Build(xcol, ycol, strategy).value.xs[i - 1];
      forall j :: 0 <= j < |xcol| && xcol[j] == Some(k0) ==> ycol[j].Some?
    ensures var f := Build(xcol, ycol, strategy).value;
      Eval(f, Some(f.xs[i])) == Aggregate(strategy, Group(xcol, ycol, f.xs[i]))
  {
    var f := Build(xcol, ycol, strategy).value;
    assert Eval(f, Some(f.xs[i])) == f.ys[i] by {
      BuildValues(xcol, ycol, strategy, i - 1);
      EvalAtLastKnot(f, i);
    }
    KnotValue(xcol, ycol, strategy, i);
  }

  /** As the code evaluates it, the largest finite source reading converts to
      NaN as soon as the source column has a NaN cell. */
  lemma AsWrittenLosesLargestReading(xcol: seq<Num>, ycol: seq<Num>, strategy: string, k: real)
    requires |xcol| == |ycol| && Build(xcol, ycol, strategy).Ok?
    requires Some(k) in xcol && Stats.HasNaN(xcol)
    requires forall j :: 0 <= j < |xcol| && xcol[j].Some? ==> xcol[j].value <= k
    ensures EvalAsWritten(Build(xcol, ycol, strategy).value, Some(k)).None?
  {
    var f := Build(xcol, ycol, strategy).value;
    LargestKnot(xcol, ycol, strategy, k);
    assert f.nanKnot by {
      BuildKnots(xcol, ycol, strategy);
    }
    AsWrittenAtLargestKnot(f);
  }

  /** A source reading below the largest one converts to NaN when one of its
      rows has a missing target. */
  lemma {:induction false} EvalMissingReading(xcol: seq<Num>, ycol: seq<Num>, strategy: string, k: real, k2: real)
    requires |xcol| == |ycol| && Build(xcol, ycol, strategy).Ok?
    requires Some(k2) in xcol && k < k2
    requires exists j :: 0 <= j < |xcol| && xcol[j] == Some(k) && ycol[j].None?
    ensures Eval(Build(xcol, ycol, strategy).value, Some(k)).None?
  {
    var f := Build(xcol, ycol, strategy).value;
    var i: int;
    assert k in f.xs && k2 in f.xs && StrictlyIncreasing(f.xs) by {
      BuildKnots(xcol, ycol, strategy);
      var j :| 0 <= j < |xcol| && xcol[j] == Some(k) && ycol[j].None?;
    }
    i := Below(f.xs, k, k2);
    assert f.ys[i].None? by {
      BuildValues(xcol, ycol, strategy, i);
    }
    EvalInSegment(f, i, k);
  }

  /** A member of a strictly increasing sequence below another member is not
      the last one. */
  lemma Below(xs: seq<real>, k: real, k2: real) returns (i: int)
    requires StrictlyIncreasing(xs) && k in xs && k2 in xs && k < k2
    ensures 0 <= i < |xs| - 1 && xs[i] == k && k < xs[i + 1]
  {
    i :| 0 <= i < |xs| && xs[i] == k;
    var i2 :| 0 <= i2 < |xs| && xs[i2] == k2;
    assert i < i2;
  }

  /** When every row with reading `k` has target `y`, the aggregate is `y`. */
  lemma {:induction false} UniformGroup(xcol: seq<Num>, ycol: seq<Num>, strategy: string, k: real, y: real)
    requires |xcol| == |ycol| && IsStrategy(strategy) && Some(k) in xcol
    requires forall j :: 0 <= j < |xcol| && xcol[j] == Some(k) ==> ycol[j] == Some(y)
    ensures Aggregate(strategy, Group(xcol, ycol, k)) == Some(y)
  {
    GroupAggregate(xcol, ycol, strategy, k);
  }

  /** Queries outside the knot range, and NaN queries, are never extrapolated. */
  lemma EvalOutside(f: Interpolant, q: Num)
    requires f.Valid()
    requires q.None? || |f.xs| < 2 || q.value < f.xs[0] || Last(f.xs) < q.value
    ensures Eval(f, q).None?
  {
  }

  /** Python's `a < b` on floats: false as soon as either side is NaN. */
  predicate Less(a: Num, b: Num) {
    a.Some? && b.Some? && a.value < b.value
  }

  /** Python's `a <= b` on floats: false as soon as either side is NaN. */
  predicate AtMost(a: Num, b: Num) {
    a.Some? && b.Some? && a.value <= b.value
  }

  /** `x_unique` as the code hands it to scipy: `numpy.unique` returns the
      finite readings in ascending order and sorts a NaN reading after them. */
  function KnotsAsWritten(f: Interpolant): (ts: seq<Num>)
    ensures |ts| == |f.xs| + (if f.nanKnot then 1 else 0)
    ensures forall i :: 0 <= i < |f.xs| ==> ts[i] == Some(f.xs[i])
    ensures f.nanKnot ==> ts[|f.xs|].None?
  {
    seq(|f.xs|, i requires 0 <= i < |f.xs| => Some(f.xs[i])) + (if f.nanKnot then [None] else [])
  }

  /** `y_unique` as the code computes it: the NaN knot gets the mean (or
      median) of `y_data[x_data == nan]`, an empty selection, which is NaN. */
  function ValuesAsWritten(f: Interpolant): (vs: seq<Num>)
    requires f.Valid()
    ensures |vs| == |f.xs| + (if f.nanKnot then 1 else 0)
    ensures forall i :: 0 <= i < |f.xs| ==> vs[i] == f.ys[i]
    ensures f.nanKnot ==> vs[|f.xs|].None?
  {
    f.ys + (if f.nanKnot then [None] else [])
  }

  /** scipy's interval search for an order-1 spline over knots `ts`, upward
      from `i`: move on while the next knot is not above `q` (a NaN knot never
      is) and is not the final knot. */
  function Interval(ts: seq<Num>, q: real, i: nat): (j: nat)
    requires |ts| >= 2 && i <= |ts| - 2
    ensures i <= j <= |ts| - 2
    ensures j < |ts| - 2 ==> !AtMost(ts[j + 1], Some(q))
    decreases |ts| - i
  {
    if i + 2 < |ts| && AtMost(ts[i + 1], Some(q)) then Interval(ts, q, i + 1) else i
  }

  /** Evaluation as the code performs it: `interp1d(x_unique, y_unique,
      kind=1, bounds_error=False, fill_value=nan)` on the knots and values that
      `numpy.unique` and the aggregation produce, NaN knot included.  The
      bounds test `q < x[0] or q > x[-1]` compares with NaN, and a segment with
      a NaN end point or a NaN value evaluates to NaN. */
  function EvalAsWritten(f: Interpolant, q: Num): (r: Num)
    requires f.Valid()
    ensures r.Some? ==> q.Some? && |f.xs| >= 2 && f.xs[0] <= q.value <= Last(f.xs)
  {
    var ts, vs := KnotsAsWritten(f), ValuesAsWritten(f);
    if q.None? || |ts| < 2 then None
    else if Less(q, ts[0]) || Less(ts[|ts| - 1], q) then None
    else
      var i := Interval(ts, q.value, 0);
      if ts[i].Some? && ts[i + 1].Some? && vs[i].Some? && vs[i + 1].Some? then
        assert i + 1 < |f.xs|;
        Some(Lerp(ts[i].value, vs[i].value, ts[i + 1].value, vs[i + 1].value, q.value))
      else None
  }

  /** Once every finite knot is at most `q`, scipy's search ends on the
      interval that runs from the largest finite knot to the NaN knot. */
  lemma {:induction false} IntervalPastFinite(f: Interpolant, q: real, i: nat)
    requires f.Valid() && f.nanKnot && |f.xs| > 0 && i <= |f.xs| - 1
    requires Last(f.xs) <= q
    ensures Interval(KnotsAsWritten(f), q, i) == |f.xs| - 1
    decreases |f.xs| - i
  {
    var ts := KnotsAsWritten(f);
    if i < |f.xs| - 1 {
      assert f.xs[i + 1] <= Last(f.xs);
      assert AtMost(ts[i + 1], Some(q));
      IntervalPastFinite(f, q, i + 1);
    }
  }

  /** Below the largest finite knot, scipy's search over the as-written knots
      finds the same interval as the search over the finite knots. */
  lemma {:induction false} IntervalIsSegment(f: Interpolant, q: real, i: nat)
    requires f.Valid() && |f.xs| >= 2 && i <= |f.xs| - 2 && f.xs[i] <= q
    requires f.nanKnot ==> q < Last(f.xs)
    ensures Interval(KnotsAsWritten(f), q, i) == Segment(f.xs, q, i)
    decreases |f.xs| - i
  {
    var ts := KnotsAsWritten(f);
    if i + 2 < |f.xs| && f.xs[i + 1] <= q {
      assert AtMost(ts[i + 1], Some(q));
      IntervalIsSegment(f, q, i + 1);
    } else if i + 2 < |f.xs| {
      assert !AtMost(ts[i + 1], Some(q));
    } else if f.nanKnot {
      assert ts[i + 1] == Some(Last(f.xs));
    }
  }

  /** The discrepancy, derived from the as-written evaluation: with a NaN
      reading in the source column, the largest finite reading evaluates to
      NaN. */
  lemma AsWrittenAtLargestKnot(f: Interpolant)
    requires f.Valid() && f.nanKnot && |f.xs| > 0
    ensures EvalAsWritten(f, Some(Last(f.xs))).None?
  {
    var ts := KnotsAsWritten(f);
    assert !Less(Some(Last(f.xs)), ts[0]) by {
      assert ts[0] == Some(f.xs[0]);
      if |f.xs| > 1 {
        assert f.xs[0] < f.xs[|f.xs| - 1];
      }
    }
    IntervalPastFinite(f, Last(f.xs), 0);
  }

  /** Everywhere else the as-written evaluation agrees with `Eval`: only the
      largest finite knot of a column with a NaN reading is affected. */
  lemma AsWrittenAgrees(f: Interpolant, q: Num)
    requires f.Valid()
    requires !(q.Some? && f.nanKnot && |f.xs| > 0 && q.value == Last(f.xs))
    ensures EvalAsWritten(f, q) == Eval(f, q)
  {
    var ts, vs := KnotsAsWritten(f), ValuesAsWritten(f);
    if q.None? || |ts| < 2 {
    } else if |f.xs| < 2 {
      if |f.xs| == 1 && !Less(q, ts[0]) {
        assert Interval(ts, q.value, 0) == 0;
      }
    } else if q.value < f.xs[0] {
      assert Less(q, ts[0]);
    } else if Last(f.xs) < q.value {
      if f.nanKnot {
        IntervalPastFinite(f, q.value, 0);
      } else {
        assert Less(ts[|ts| - 1], q);
      }
    } else {
      assert f.nanKnot ==> q.value < Last(f.xs);
      assert !Less(q, ts[0]) && !Less(ts[|ts| - 1], q);
      IntervalIsSegment(f, q.value, 0);
      var i := Segment(f.xs, q.value, 0);
      assert ts[i] == Some(f.xs[i]) && ts[i + 1] == Some(f.xs[i + 1]);
      assert vs[i] == f.ys[i] && vs[i + 1] == f.ys[i + 1];
    }
  }
}
