/** The hardness converter of substance/hardness.py: six scales, one
    interpolant per ordered pair of scales built directly from the reference
    table, and `convert`, which expands one reading to all six scales.
 */
module Hardness {
  import opened Outcomes
  import opened PyValues
  import Interp

  /** Brinell, Rockwell A/C/B, Vickers and Shore D. */
  datatype Scale = HB | HRA | HRC | HRB | HV | HSD

  /** `Hardness.__slots__`, in declaration order. */
  const Scales: seq<Scale> := [HB, HRA, HRC, HRB, HV, HSD]

  function Name(s: Scale): string {
    match s
    case HB => "HB"
    case HRA => "HRA"
    case HRC => "HRC"
    case HRB => "HRB"
    case HV => "HV"
    case HSD => "HSD"
  }

  /** The scale a keyword names, if it is one of the slots. */
  function ParseScale(key: string): (r: Option<Scale>)
    ensures r.Some? ==> Name(r.value) == key
  {
    if key == "HB" then Some(HB)
    else if key == "HRA" then Some(HRA)
    else if key == "HRC" then Some(HRC)
    else if key == "HRB" then Some(HRB)
    else if key == "HV" then Some(HV)
    else if key == "HSD" then Some(HSD)
    else None
  }

  /** Every slot name parses back to its scale, every scale is a slot, and no
      other keyword is accepted. */
  lemma ScaleNames(s: Scale, key: string)
    ensures ParseScale(Name(s)) == Some(s)
    ensures s in Scales
    ensures ParseScale(key).Some? <==> exists t :: t in Scales && Name(t) == key
  {
    if ParseScale(key).Some? {
      assert ParseScale(key).value in Scales;
    }
  }

  /** One record of the reference table; NaN cells are `None`. */
  datatype Row = Row(d10mm: real, hb: Num, hra: Num, hrc: Num, hrb: Num, hv: Num, hsd: Num)

  function Cell(r: Row, s: Scale): Num {
    match s
    case HB => r.hb
    case HRA => r.hra
    case HRC => r.hrc
    case HRB => r.hrb
    case HV => r.hv
    case HSD => r.hsd
  }

  /** `array([d[s] for d in data])` */
  function Column(table: seq<Row>, s: Scale): (c: seq<Num>)
    ensures |c| == |table|
    ensures forall i :: 0 <= i < |table| ==> c[i] == Cell(table[i], s)
  {
    if |table| == 0 then [] else Column(table[..|table| - 1], s) + [Cell(table[|table| - 1], s)]
  }

  /** The class attribute `A_B = interpolate("A", "B", kind=1)`: built from the
      two columns `a` and `b` only, duplicates collapsed by mean. */
  function PairInterpolant(table: seq<Row>, a: Scale, b: Scale): Result<Interp.Interpolant> {
    Interp.Build(Column(table, a), Column(table, b), "mean")
  }

  /** No reading on scale `a` lies strictly between `lo` and `hi`. */
  predicate Gap(table: seq<Row>, a: Scale, lo: real, hi: real) {
    forall j :: 0 <= j < |table| && Cell(table[j], a).Some? ==> !(lo < Cell(table[j], a).value < hi)
  }

  /** Every row reading `k` on scale `a` reads `y` on scale `b`. */
  predicate Uniform(table: seq<Row>, a: Scale, k: real, b: Scale, y: Num) {
    forall j :: 0 <= j < |table| && Cell(table[j], a) == Some(k) ==> Cell(table[j], b) == y
  }

  /** Every row reading `k` on scale `a` has a reading on scale `b`. */
  predicate Readings(table: seq<Row>, a: Scale, k: real, b: Scale) {
    forall j :: 0 <= j < |table| && Cell(table[j], a) == Some(k) ==> Cell(table[j], b).Some?
  }

  /** A table row converts to its own reading: if every row reading `k` on
      scale `a` reads `y` on scale `b`, and the next larger reading `k2` on
      scale `a` has all its readings on `b`, the pair interpolant maps `k` to
      `y` (the test's promise, exactly, at the table's own rows). */
  lemma {:induction false} ConvertsRow(table: seq<Row>, a: Scale, b: Scale, r: int, k: real, r2: int, k2: real)
    requires PairInterpolant(table, a, b).Ok?
    requires 0 <= r < |table| && 0 <= r2 < |table|
    requires Cell(table[r], a) == Some(k) && Cell(table[r2], a) == Some(k2) && k < k2
    requires Cell(table[r], b).Some?
    requires Gap(table, a, k, k2)
    requires Uniform(table, a, k, b, Cell(table[r], b))
    requires Readings(table, a, k2, b)
    ensures Interp.Eval(PairInterpolant(table, a, b).value, Some(k)) == Cell(table[r], b)
  {
    var xc, yc := Column(table, a), Column(table, b);
    assert xc[r] in xc && xc[r2] in xc;
    Interp.EvalAtReading(xc, yc, "mean", k, k2);
    Interp.UniformGroup(xc, yc, "mean", k, Cell(table[r], b).value);
  }

  /** A reading `k` on scale `a`, below a reading `k2` whose rows all read on
      scale `b`, with no reading between them, converts to the mean of the
      targets of the rows reading `k`. */
  lemma {:induction false} ConvertsReading(table: seq<Row>, a: Scale, b: Scale, k: real, r2: int, k2: real)
    requires PairInterpolant(table, a, b).Ok?
    requires 0 <= r2 < |table| && Cell(table[r2], a) == Some(k2) && k < k2
    requires Some(k) in Column(table, a)
    requires Gap(table, a, k, k2)
    requires Readings(table, a, k2, b)
    ensures Interp.Eval(PairInterpolant(table, a, b).value, Some(k)) ==
      Interp.Aggregate("mean", Interp.Group(Column(table, a), Column(table, b), k))
  {
    var xc, yc := Column(table, a), Column(table, b);
    assert xc[r2] in xc;
    Interp.EvalAtReading(xc, yc, "mean", k, k2);
  }

  /** A reading `k` on scale `a` below a larger reading `k2` converts to NaN
      on scale `b` when one of its rows has no reading on `b`. */
  lemma {:induction false} MissingRow(table: seq<Row>, a: Scale, b: Scale, r: int, k: real, r2: int, k2: real)
    requires PairInterpolant(table, a, b).Ok?
    requires 0 <= r < |table| && 0 <= r2 < |table|
    requires Cell(table[r], a) == Some(k) && Cell(table[r2], a) == Some(k2) && k < k2
    requires Cell(table[r], b).None?
    ensures Interp.Eval(PairInterpolant(table, a, b).value, Some(k)).None?
  {
    var xc, yc := Column(table, a), Column(table, b);
    assert xc[r2] in xc;
    assert xc[r] == Some(k) && yc[r].None?;
    Interp.EvalMissingReading(xc, yc, "mean", k, k2);
  }

  /** Every reading on scale `a` is at most `k0`, or is `k` itself. */
  predicate Top(table: seq<Row>, a: Scale, k0: real, k: real) {
    forall j :: 0 <= j < |table| && Cell(table[j], a).Some? ==> Cell(table[j], a).value <= k0 || Cell(table[j], a).value == k
  }

  /** The largest reading `k` on scale `a` converts to its rows' reading `y` on
      scale `b` when the reading `k0` just below has all its readings on `b`;
      as the code evaluates it, the same query gives NaN once a row has no
      reading on `a`. */
  lemma {:induction false} LargestRow(table: seq<Row>, a: Scale, b: Scale, r: int, k: real, r0: int, k0: real, rn: int)
    requires PairInterpolant(table, a, b).Ok?
    requires 0 <= r < |table| && 0 <= r0 < |table| && 0 <= rn < |table|
    requires Cell(table[r], a) == Some(k) && Cell(table[r0], a) == Some(k0) && k0 < k
    requires Cell(table[r], b).Some? && Cell(table[rn], a).None?
    requires Top(table, a, k0, k)
    requires Uniform(table, a, k, b, Cell(table[r], b))
    requires Readings(table, a, k0, b)
    ensures Interp.Eval(PairInterpolant(table, a, b).value, Some(k)) == Cell(table[r], b)
    ensures Interp.EvalAsWritten(PairInterpolant(table, a, b).value, Some(k)).None?
  {
    var xc, yc := Column(table, a), Column(table, b);
    assert xc[r] in xc && xc[r0] in xc;
    assert xc[rn].None?;
    Interp.EvalAtLargestReading(xc, yc, "mean", k0, k);
    Interp.UniformGroup(xc, yc, "mean", k, Cell(table[r], b).value);
    Interp.AsWrittenLosesLargestReading(xc, yc, "mean", k);
  }

  /** The 30 ordered pairs of distinct scales. */
  const AllPairs: set<(Scale, Scale)> := set a, b | a in Scales && b in Scales && a != b :: (a, b)

  /** The 30 interpolants of the class body. */
  datatype Converter = Converter(pairs: map<(Scale, Scale), Interp.Interpolant>) {
    predicate Complete() {
      forall a: Scale, b: Scale :: a != b ==> (a, b) in pairs && pairs[(a, b)].Valid()
    }
  }

  predicate AllPairsBuild(table: seq<Row>) {
    forall a, b | a in Scales && b in Scales && a != b :: PairInterpolant(table, a, b).Ok?
  }

  /** The class body: every pair interpolant built independently of the
      others; if one of them cannot be built, the class cannot be defined. */
  function Build(table: seq<Row>): (r: Result<Converter>)
    ensures r.Ok? <==> AllPairsBuild(table)
    ensures r.Ok? ==> r.value.Complete()
    ensures r.Ok? ==> forall a: Scale, b: Scale :: a != b ==>
      Ok(r.value.pairs[(a, b)]) == PairInterpolant(table, a, b)
  {
    if AllPairsBuild(table) then
      var c := Converter(map p | p in AllPairs :: PairInterpolant(table, p.0, p.1).value);
      assert forall a: Scale, b: Scale :: a != b ==> (a, b) in AllPairs by {
        forall a: Scale, b: Scale | a != b ensures (a, b) in AllPairs {
          ScaleNames(a, "");
          ScaleNames(b, "");
        }
      }
      Ok(c)
    else
      Err(ValueError)
  }

  /** `Hardness.validate(**hardness)`: exactly one keyword, naming a slot, with
      an int or float value; every failure is an `AssertionError`. */
  function Validate(kwargs: seq<(string, Value)>): (r: Result<(Scale, Value)>)
    ensures r.Ok? <==> |kwargs| == 1 && ParseScale(kwargs[0].0).Some? && IsNumber(kwargs[0].1)
    ensures r.Ok? ==> Name(r.value.0) == kwargs[0].0 && r.value.1 == kwargs[0].1
    ensures r.Err? ==> r.error == AssertionError
  {
    if |kwargs| != 1 then Err(AssertionError)
    else
      var (key, value) := kwargs[0];
      match ParseScale(key)
      case None => Err(AssertionError)
      case Some(s) => if IsNumber(value) then Ok((s, value)) else Err(AssertionError)
  }

  /** `Hardness.convert(**hardness)`. */
  function Convert(c: Converter, kwargs: seq<(string, Value)>): (r: Result<map<Scale, Value>>)
    requires c.Complete()
    ensures r.Ok? <==> Validate(kwargs).Ok?
    ensures r.Err? ==> r.error == AssertionError
    ensures r.Ok? ==>
      var (a, v) := Validate(kwargs).value;
      && (forall s :: s in r.value)
      && r.value[a] == v
      && forall b :: b != a ==> r.value[b] == Float(Interp.Eval(c.pairs[(a, b)], AsNum(v)))
  {
    match Validate(kwargs)
    case Err(e) => Err(e)
    case Ok((a, v)) =>
      assert forall s: Scale :: s in Scales by {
        forall s: Scale ensures s in Scales { ScaleNames(s, ""); }
      }
      Ok(map s | s in Scales :: if s == a then v else Float(Interp.Eval(c.pairs[(a, s)], AsNum(v))))
  }

  /** `Hardness.convert(**hardness)` as the code evaluates it, every pair
      interpolant evaluated with its NaN knot in place. */
  function ConvertAsWritten(c: Converter, kwargs: seq<(string, Value)>): (r: Result<map<Scale, Value>>)
    requires c.Complete()
    ensures r.Ok? <==> Validate(kwargs).Ok?
    ensures r.Err? ==> r.error == AssertionError
    ensures r.Ok? ==>
      var (a, v) := Validate(kwargs).value;
      && (forall s :: s in r.value)
      && r.value[a] == v
      && forall b :: b != a ==> r.value[b] == Float(Interp.EvalAsWritten(c.pairs[(a, b)], AsNum(v)))
  {
    match Validate(kwargs)
    case Err(e) => Err(e)
    case Ok((a, v)) =>
      assert forall s: Scale :: s in Scales by {
        forall s: Scale ensures s in Scales { ScaleNames(s, ""); }
      }
      Ok(map s | s in Scales :: if s == a then v else Float(Interp.EvalAsWritten(c.pairs[(a, s)], AsNum(v))))
  }

  /** The code's `convert` and the corrected one differ on scale `b` exactly
      at the largest finite reading of a source column that has a NaN cell,
      where the code gives NaN. */
  lemma ConvertAsWrittenDiffers(c: Converter, kwargs: seq<(string, Value)>, b: Scale)
    requires c.Complete() && Validate(kwargs).Ok? && b != Validate(kwargs).value.0
    ensures var (a, v) := Validate(kwargs).value;
      var f, q := c.pairs[(a, b)], AsNum(v);
      && (q.Some? && f.nanKnot && |f.xs| > 0 && q.value == Interp.Last(f.xs) ==>
            ConvertAsWritten(c, kwargs).value[b] == Float(None))
      && (!(q.Some? && f.nanKnot && |f.xs| > 0 && q.value == Interp.Last(f.xs)) ==>
            ConvertAsWritten(c, kwargs).value[b] == Convert(c, kwargs).value[b])
  {
    var (a, v) := Validate(kwargs).value;
    var f, q := c.pairs[(a, b)], AsNum(v);
    if q.Some? && f.nanKnot && |f.xs| > 0 && q.value == Interp.Last(f.xs) {
      Interp.AsWrittenAtLargestKnot(f);
    } else {
      Interp.AsWrittenAgrees(f, q);
    }
  }

  /** The reading either `convert` gives scale `b` is the table's pair
      interpolant for the given scale and `b`, evaluated at the given value. */
  lemma PairOfConvert(table: seq<Row>, kwargs: seq<(string, Value)>, b: Scale)
    requires Build(table).Ok? && Validate(kwargs).Ok? && b != Validate(kwargs).value.0
    ensures var (a, v) := Validate(kwargs).value;
      && Convert(Build(table).value, kwargs).value[b] == Float(Interp.Eval(PairInterpolant(table, a, b).value, AsNum(v)))
      && ConvertAsWritten(Build(table).value, kwargs).value[b] ==
           Float(Interp.EvalAsWritten(PairInterpolant(table, a, b).value, AsNum(v)))
  {
    var a := Validate(kwargs).value.0;
    assert Ok(Build(table).value.pairs[(a, b)]) == PairInterpolant(table, a, b);
  }

  /** A map is the result of `convert` when it keeps the given reading and
      holds every other scale's interpolated value. */
  lemma ConvertResult(c: Converter, kwargs: seq<(string, Value)>, m: map<Scale, Value>)
    requires c.Complete() && Validate(kwargs).Ok?
    requires forall s :: s in m
    requires var (a, v) := Validate(kwargs).value;
      m[a] == v && forall b :: b != a ==> m[b] == Float(Interp.Eval(c.pairs[(a, b)], AsNum(v)))
    ensures Convert(c, kwargs) == Ok(m)
  {
    var r := Convert(c, kwargs).value;
    var a, v := Validate(kwargs).value.0, Validate(kwargs).value.1;
    forall s ensures s in r && r[s] == m[s] {
      if s != a {
        assert r[s] == Float(Interp.Eval(c.pairs[(a, s)], AsNum(v)));
      }
    }
    assert r.Keys == m.Keys;
    assert r == m;
  }

  /** An instance of `Hardness`: the six attributes `__init__` sets. */
  datatype Reading = Reading(attrs: map<Scale, Value>)

  /** `Hardness(**hardness)`: validate, convert, and set every converted value. */
  function New(c: Converter, kwargs: seq<(string, Value)>): Result<Reading>
    requires c.Complete()
  {
    match Convert(c, kwargs)
    case Err(e) => Err(e)
    case Ok(converted) => Ok(Reading(converted))
  }

  /** The `values` property: every slot, NaN for a slot that was never set. */
  function Values(h: Reading): map<Scale, Value> {
    map s | s in Scales :: if s in h.attrs then h.attrs[s] else Float(None)
  }

  /** `Hardness(**h).values` is `Hardness.convert(**h)`, and the constructor
      fails exactly when `convert` does. */
  lemma ValuesAreConversion(c: Converter, kwargs: seq<(string, Value)>)
    requires c.Complete()
    ensures New(c, kwargs).Ok? <==> Convert(c, kwargs).Ok?
    ensures New(c, kwargs).Ok? ==> Values(New(c, kwargs).value) == Convert(c, kwargs).value
  {
    if Convert(c, kwargs).Ok? {
      var m := Convert(c, kwargs).value;
      var v := Values(New(c, kwargs).value);
      forall s: Scale ensures s in Scales { ScaleNames(s, ""); }
      assert v.Keys == m.Keys;
    }
  }

  /** No conversion chains through a third scale: the reading that `convert`
      derives for scale `b` from scale `a` depends on columns `a` and `b` of the
      table alone. */
  lemma NoChaining(t1: seq<Row>, t2: seq<Row>, kwargs: seq<(string, Value)>, b: Scale)
    requires Build(t1).Ok? && Build(t2).Ok?
    requires Validate(kwargs).Ok?
    requires var a := Validate(kwargs).value.0;
      Column(t1, a) == Column(t2, a) && Column(t1, b) == Column(t2, b)
    ensures Convert(Build(t1).value, kwargs).value[b] == Convert(Build(t2).value, kwargs).value[b]
  {
    var (a, v) := Validate(kwargs).value;
    if b != a {
      var c1, c2 := Build(t1).value, Build(t2).value;
      assert Ok(c1.pairs[(a, b)]) == PairInterpolant(t1, a, b);
      assert Ok(c2.pairs[(a, b)]) == PairInterpolant(t2, a, b);
      assert c1.pairs[(a, b)] == c2.pairs[(a, b)];
    }
  }
}
