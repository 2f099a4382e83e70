/** `Material` of substance/substance.py: construction-time classification of
    each parameter value into a constant, a table of (temperature, value) rows
    or a smoke-tested callable, with the guards on name, interpolation kind,
    fill value, composition and reference.
 */
module Materials {
  import opened Outcomes
  import opened PyValues

  /** The temperature at which a callable parameter is smoke-tested. */
  const SmokeTemperature: real := 273.15

  /** A parameter after ingestion.  A table keeps its two columns; the
      interpolant `interp1d` builds from them is not modelled here. */
  datatype Param =
    | Constant(c: Num)
    | Table(temps: seq<Num>, values: seq<Num>)
    | Function(f: real -> Option<Num>)

  /** The attributes a constructed material carries.  `skipped` lists, in
      order, the parameters dropped with a diagnostic. */
  datatype Material = Material(
    name: string,
    params: map<string, Param>,
    composition: Value,
    reference: string,
    kind: int,
    extrapolate: bool,
    skipped: seq<string>)

  /** A parameter that ingestion can produce. */
  predicate ValidParam(p: Param) {
    && (p.Table? ==> |p.temps| == |p.values| && |p.temps| > 3)
    && (p.Function? ==> p.f(SmokeTemperature).Some?)
  }

  /** `isinstance(v, (tuple, list))` with only numbers inside. */
  predicate NumberRow(v: Value) {
    IsSequence(v) && AllNumbers(v.items)
  }

  /** Rows that `numpy.array` turns into a rectangular numeric array of
      `width` columns. */
  predicate Rectangular(rows: seq<Value>, width: nat) {
    forall i :: 0 <= i < |rows| ==> NumberRow(rows[i]) && |rows[i].items| == width
  }

  /** The element-wise numbers of one column of pair rows. */
  function ColumnOf(rows: seq<Value>, c: nat): (col: seq<Num>)
    requires c < 2 && Rectangular(rows, 2)
    ensures |col| == |rows|
    ensures forall i :: 0 <= i < |rows| ==> col[i] == AsNum(rows[i].items[c])
  {
    seq(|rows|, i requires 0 <= i < |rows| => AsNum(rows[i].items[c]))
  }

  /** `array(value).T` followed by the shape assertion: the transposed array
      must have two rows and more than three columns. */
  function TableOf(rows: seq<Value>): (r: Result<Param>)
    ensures r.Ok? <==> Rectangular(rows, 2) && |rows| > 3
    ensures r.Ok? ==> r.value.Table? && ValidParam(r.value)
    ensures r.Ok? ==> |r.value.temps| == |rows| && |r.value.values| == |rows|
    ensures r.Ok? ==> forall i :: 0 <= i < |rows| ==>
      r.value.temps[i] == AsNum(rows[i].items[0]) && r.value.values[i] == AsNum(rows[i].items[1])
    ensures AllNumbers(rows) ==> r == Err(AssertionError)
    ensures |rows| > 0 && NumberRow(rows[0]) && Rectangular(rows, |rows[0].items|) && !r.Ok? ==> r == Err(AssertionError)
  {
    if AllNumbers(rows) then
      assert !(Rectangular(rows, 2) && |rows| > 3) by {
        if |rows| > 0 { assert IsNumber(rows[0]); }
      }
      Err(AssertionError)
    else if NumberRow(rows[0]) && Rectangular(rows, |rows[0].items|) then
      if |rows[0].items| == 2 && |rows| > 3 then Ok(Table(ColumnOf(rows, 0), ColumnOf(rows, 1)))
      else Err(AssertionError)
    else Err(ValueError)
  }

  /** One parameter value classified as the branches of `__init__` do: a
      number, then a tuple or list, then a callable; anything else raises.  A
      callable that raises when called at 273.15 is dropped (`None`). */
  function Classify(value: Value): (r: Result<Option<Param>>)
    ensures IsNumber(value) ==> r == Ok(Some(Constant(AsNum(value))))
    ensures IsSequence(value) ==> (r.Ok? <==> TableOf(value.items).Ok?)
    ensures IsSequence(value) && r.Ok? ==> r.value == Some(TableOf(value.items).value)
    ensures value.Callable? ==> r.Ok? && (r.value.Some? <==> value.call(SmokeTemperature).Some?)
    ensures value.Callable? && r.value.Some? ==> r.value.value.Function? && r.value.value.f == value.call
    ensures !IsNumber(value) && !IsSequence(value) && !value.Callable? ==> r == Err(PlainException)
    ensures r.Ok? && r.value.Some? ==> ValidParam(r.value.value)
  {
    if IsNumber(value) then Ok(Some(Constant(AsNum(value))))
    else if IsSequence(value) then
      match TableOf(value.items)
      case Ok(t) => Ok(Some(t))
      case Err(e) => Err(e)
    else if value.Callable? then
      if value.call(SmokeTemperature).Some? then Ok(Some(Function(value.call))) else Ok(None)
    else Err(PlainException)
  }

  /** The parameters set so far and the diagnostics printed so far. */
  datatype Ingested = Ingested(params: map<string, Param>, skipped: seq<string>)

  /** The value under a reserved attribute name fails: the `name` property's
      setter refuses anything but a `str`.  A callable is assigned inside the
      `try`, so for it the refusal is caught and the parameter dropped. */
  predicate Refused(key: string, p: Param) {
    key == "name" && !p.Function?
  }

  /** Whether the loop over `parameters` completes. */
  predicate Ingestible(entries: seq<(Value, Value)>)
    requires AllStrKeys(entries)
  {
    forall i :: 0 <= i < |entries| ==>
      Classify(entries[i].1).Ok? &&
      (Classify(entries[i].1).value.Some? ==> !Refused(entries[i].0.s, Classify(entries[i].1).value.value))
  }

  /** The loop over `parameters.items()`, in dict order. */
  function Ingest(entries: seq<(Value, Value)>, acc: Ingested): (r: Result<Ingested>)
    requires AllStrKeys(entries)
    ensures r.Ok? <==> Ingestible(entries)
    ensures r.Ok? && (forall k :: k in acc.params ==> ValidParam(acc.params[k])) ==>
      forall k :: k in r.value.params ==> ValidParam(r.value.params[k])
    ensures r.Ok? ==> forall k :: k in r.value.params ==>
      k in acc.params || exists i :: 0 <= i < |entries| && entries[i].0.s == k
    ensures r.Ok? && "name" !in acc.params ==> "name" !in r.value.params
    decreases |entries|
  {
    if |entries| == 0 then Ok(acc)
    else
      var key, rest := entries[0].0.s, entries[1..];
      assert AllStrKeys(rest) by { assert forall i :: 0 <= i < |rest| ==> rest[i] == entries[i + 1]; }
      assert forall i :: 0 <= i < |rest| ==> rest[i] == entries[i + 1];
      match Classify(entries[0].1)
      case Err(e) => Err(e)
      case Ok(None) => Ingest(rest, acc.(skipped := acc.skipped + [key]))
      case Ok(Some(p)) =>
        if key == "name" then
          if p.Function? then Ingest(rest, acc.(skipped := acc.skipped + [key])) else Err(AssertionError)
        else Ingest(rest, acc.(params := acc.params[key := p]))
  }

  /** The kind of the last entry named `k`, after a complete loop: the
      parameter it became, or its absence with a diagnostic. */
  lemma {:induction false} IngestLastWins(entries: seq<(Value, Value)>, acc: Ingested, i: int)
    requires AllStrKeys(entries) && Ingestible(entries) && 0 <= i < |entries|
    requires forall j :: 0 <= j < |entries| && j != i ==> entries[j].0.s != entries[i].0.s
    ensures var k, c := entries[i].0.s, Classify(entries[i].1).value;
      var r := Ingest(entries, acc).value;
      && (c.Some? && k != "name" ==> k in r.params && r.params[k] == c.value)
      && (c.None? && k !in acc.params ==> k !in r.params)
      && (c.None? ==> k in r.skipped)
    decreases |entries|
  {
    var rest := entries[1..];
    assert forall j :: 0 <= j < |rest| ==> rest[j] == entries[j + 1];
    var key := entries[0].0.s;
    var c0 := Classify(entries[0].1).value;
    var next := if c0.Some? && key != "name" then acc.(params := acc.params[key := c0.value])
                else acc.(skipped := acc.skipped + [key]);
    assert Ingest(entries, acc) == Ingest(rest, next);
    if i > 0 {
      IngestLastWins(rest, next, i - 1);
    } else {
      IngestKeeps(rest, next, key);
      if c0.None? {
        assert next.skipped[|next.skipped| - 1] == key;
      }
    }
  }

  /** Entries that never name `k` leave `k` as it was and keep every
      diagnostic already printed. */
  lemma {:induction false} IngestKeeps(entries: seq<(Value, Value)>, acc: Ingested, k: string)
    requires AllStrKeys(entries) && Ingestible(entries)
    requires forall j :: 0 <= j < |entries| ==> entries[j].0.s != k
    ensures var r := Ingest(entries, acc).value;
      && (k in r.params <==> k in acc.params)
      && (k in acc.params ==> r.params[k] == acc.params[k])
      && (forall j :: 0 <= j < |acc.skipped| ==> acc.skipped[j] in r.skipped)
    decreases |entries|
  {
    if |entries| > 0 {
      var rest := entries[1..];
      assert forall j :: 0 <= j < |rest| ==> rest[j] == entries[j + 1];
      var key := entries[0].0.s;
      var c0 := Classify(entries[0].1).value;
      var next := if c0.Some? && key != "name" then acc.(params := acc.params[key := c0.value])
                  else acc.(skipped := acc.skipped + [key]);
      assert Ingest(entries, acc) == Ingest(rest, next);
      IngestKeeps(rest, next, k);
      assert forall j :: 0 <= j < |acc.skipped| ==> acc.skipped[j] == next.skipped[j];
    }
  }

  /** `isnan(fill_value) or fill_value == "extrapolate"`, as intended: NaN or
      the string "extrapolate"; `true` for the latter. */
  function FillValue(v: Value): (r: Result<bool>)
    ensures r.Ok? <==> v == Float(None) || v == Str("extrapolate")
    ensures r.Ok? ==> (r.value <==> v.Str?)
    ensures IsNumber(v) && !r.Ok? ==> r == Err(AssertionError)
    ensures !IsNumber(v) && !r.Ok? ==> r == Err(TypeError)
  {
    if v.Str? && v.s == "extrapolate" then Ok(true)
    else FillValueAsWritten(v)
  }

  /** The same guard as the code evaluates it: `isnan` runs first and raises
      `TypeError` on every string, "extrapolate" included. */
  function FillValueAsWritten(v: Value): (r: Result<bool>)
    ensures r.Ok? <==> v == Float(None)
    ensures r.Ok? ==> !r.value
    ensures IsNumber(v) && !r.Ok? ==> r == Err(AssertionError)
    ensures !IsNumber(v) ==> r == Err(TypeError)
  {
    if IsNumber(v) then
      if AsNum(v).None? then Ok(false) else Err(AssertionError)
    else Err(TypeError)
  }

  /** The guard as written refuses "extrapolate", which the intended guard
      accepts; on every other value the two agree. */
  lemma FillValueDiffers(v: Value)
    ensures FillValueAsWritten(Str("extrapolate")) == Err(TypeError)
    ensures FillValue(Str("extrapolate")) == Ok(true)
    ensures !(v.Str? && v.s == "extrapolate") ==> FillValue(v) == FillValueAsWritten(v)
  {
  }

  /** The composition guard: `None`, or a dict of `str` keys and numbers in
      [0, 1]; any other type raises `ValueError`. */
  function Composition(v: Value): (r: Result<Value>)
    ensures r.Ok? <==> v.NoneValue? || (v.Dict? && AllStrKeys(v.entries) && Fractions(v.entries))
    ensures r.Ok? ==> r.value == v
    ensures !v.NoneValue? && !v.Dict? ==> r == Err(ValueError)
    ensures v.Dict? && !r.Ok? ==> r == Err(AssertionError)
  {
    if v.NoneValue? then Ok(v)
    else if v.Dict? then
      if AllStrKeys(v.entries) && Fractions(v.entries) then Ok(v) else Err(AssertionError)
    else Err(ValueError)
  }

  /** Every value of a composition is a number in [0, 1] (NaN fails). */
  predicate Fractions(entries: seq<(Value, Value)>) {
    forall i :: 0 <= i < |entries| ==>
      IsNumber(entries[i].1) && AsNum(entries[i].1).Some? && 0.0 <= AsNum(entries[i].1).value <= 1.0
  }

  /** `isinstance(kind, int) and 0 <= kind <= 3`; a `bool` is an `int`. */
  function Kind(v: Value): (r: Result<int>)
    ensures r.Ok? <==> (v.Int? && 0 <= v.i <= 3) || v.Bool?
    ensures r.Ok? ==> 0 <= r.value <= 3
    ensures r.Ok? && v.Int? ==> r.value == v.i
    ensures r.Err? ==> r.error == AssertionError
  {
    match v
    case Int(i) => if 0 <= i <= 3 then Ok(i) else Err(AssertionError)
    case Bool(b) => Ok(if b then 1 else 0)
    case _ => Err(AssertionError)
  }

  /** A constructed material: a `str` name, a kind in 0..3, only valid
      parameters, none under "name", "composition" or "reference", and a
      composition that passed its guard. */
  predicate Valid(m: Material) {
    && 0 <= m.kind <= 3
    && (forall k :: k in m.params ==> ValidParam(m.params[k]))
    && "name" !in m.params && "composition" !in m.params && "reference" !in m.params
    && Composition(m.composition).Ok?
  }

  /** The checks of `Material.__init__` in the order the constructor makes
      them, given the outcome of its fill-value guard.  Parameters called
      "composition" or "reference" are overwritten by those attributes. */
  function Construct(name: Value, parameters: Value, composition: Value, reference: Value,
                     kind: Value, fill: Result<bool>): Result<Material>
  {
    if !name.Str? then Err(AssertionError)
    else match Kind(kind)
    case Err(e) => Err(e)
    case Ok(k) =>
      match fill
      case Err(e) => Err(e)
      case Ok(extrapolate) =>
        if !parameters.Dict? || !AllStrKeys(parameters.entries) then Err(AssertionError)
        else match Ingest(parameters.entries, Ingested(map[], []))
        case Err(e) => Err(e)
        case Ok(ing) =>
          match Composition(composition)
          case Err(e) => Err(e)
          case Ok(c) =>
            if !reference.Str? then Err(AssertionError)
            else Ok(Material(name.s, ing.params - {"composition", "reference"}, c, reference.s, k, extrapolate, ing.skipped))
  }

  /** `Material(name, parameters, composition, reference, kind, fill_value)`
      with the intended fill-value guard. */
  function New(name: Value, parameters: Value, composition: Value, reference: Value,
               kind: Value, fillValue: Value): (r: Result<Material>)
    ensures !name.Str? ==> r == Err(AssertionError)
    ensures name.Str? && Kind(kind).Err? ==> r == Err(AssertionError)
    ensures name.Str? && Kind(kind).Ok? && FillValue(fillValue).Err? ==> r == Err(FillValue(fillValue).error)
    ensures r.Ok? ==> Valid(r.value) && r.value.name == name.s && r.value.composition == composition
    ensures r.Ok? ==> r.value.kind == Kind(kind).value && r.value.extrapolate == FillValue(fillValue).value
    ensures r.Ok? <==>
      && name.Str? && Kind(kind).Ok? && FillValue(fillValue).Ok?
      && parameters.Dict? && AllStrKeys(parameters.entries) && Ingestible(parameters.entries)
      && Composition(composition).Ok? && reference.Str?
  {
    Construct(name, parameters, composition, reference, kind, FillValue(fillValue))
  }

  /** The constructor as the code runs it, with the fill-value guard as
      written: only NaN gets through. */
  function NewAsWritten(name: Value, parameters: Value, composition: Value, reference: Value,
                        kind: Value, fillValue: Value): (r: Result<Material>)
    ensures r.Ok? ==> fillValue == Float(None) && !r.value.extrapolate
    ensures name.Str? && Kind(kind).Ok? && !IsNumber(fillValue) ==> r == Err(TypeError)
  {
    Construct(name, parameters, composition, reference, kind, FillValueAsWritten(fillValue))
  }

  /** The constructor as written refuses `fill_value="extrapolate"` with a
      `TypeError` once name and kind have passed; the intended constructor
      accepts it, and for every other fill value the two agree. */
  lemma NewAsWrittenDiffers(name: Value, parameters: Value, composition: Value, reference: Value, kind: Value, fillValue: Value)
    ensures fillValue != Str("extrapolate") ==>
      NewAsWritten(name, parameters, composition, reference, kind, fillValue) == New(name, parameters, composition, reference, kind, fillValue)
    ensures fillValue == Str("extrapolate") && name.Str? && Kind(kind).Ok? ==>
      && NewAsWritten(name, parameters, composition, reference, kind, fillValue) == Err(TypeError)
      && (New(name, parameters, composition, reference, kind, fillValue).Ok? <==>
            parameters.Dict? && AllStrKeys(parameters.entries) && Ingestible(parameters.entries)
            && Composition(composition).Ok? && reference.Str?)
  {
    FillValueDiffers(fillValue);
    if fillValue != Str("extrapolate") {
      assert FillValue(fillValue) == FillValueAsWritten(fillValue);
    } else if name.Str? && Kind(kind).Ok? {
      assert FillValueAsWritten(fillValue) == Err(TypeError);
    }
  }

  /** The `name` property's setter. */
  function SetName(m: Material, v: Value): (r: Result<Material>)
    ensures r.Ok? <==> v.Str?
    ensures r.Ok? ==> r.value.name == v.s && r.value.(name := m.name) == m
    ensures r.Err? ==> r.error == AssertionError
  {
    if v.Str? then Ok(m.(name := v.s)) else Err(AssertionError)
  }

  /** An evaluator for a table: the `interp1d` of the given kind and fill
      value over the two columns, at one temperature. */
  type Spline = (seq<Num>, seq<Num>, int, bool, real) -> Num

  /** Calling a parameter at temperature `t`.  A callable that raises gives
      `PlainException`, standing for whatever it raised. */
  function Evaluate(m: Material, p: Param, t: real, spline: Spline): (r: Result<Num>)
    ensures p.Constant? ==> r == Ok(p.c)
    ensures p.Table? ==> r == Ok(spline(p.temps, p.values, m.kind, m.extrapolate, t))
    ensures p.Function? ==> (r.Ok? <==> p.f(t).Some?) && (r.Ok? ==> r.value == p.f(t).value)
  {
    match p
    case Constant(c) => Ok(c)
    case Table(temps, values) => Ok(spline(temps, values, m.kind, m.extrapolate, t))
    case Function(f) => if f(t).Some? then Ok(f(t).value) else Err(PlainException)
  }

  /** A number given as a parameter becomes a constant: the material returns
      it at every temperature. */
  lemma ConstantEverywhere(name: Value, entries: seq<(Value, Value)>, composition: Value, reference: Value,
                           kind: Value, fillValue: Value, i: int, t: real, spline: Spline)
    requires New(name, Dict(entries), composition, reference, kind, fillValue).Ok?
    requires 0 <= i < |entries| && IsNumber(entries[i].1)
    requires entries[i].0.Str? && entries[i].0.s != "composition" && entries[i].0.s != "reference"
    requires forall j :: 0 <= j < |entries| && j != i ==> entries[j].0.s != entries[i].0.s
    ensures var m := New(name, Dict(entries), composition, reference, kind, fillValue).value;
      entries[i].0.s in m.params && Evaluate(m, m.params[entries[i].0.s], t, spline) == Ok(AsNum(entries[i].1))
  {
    var m := New(name, Dict(entries), composition, reference, kind, fillValue).value;
    IngestLastWins(entries, Ingested(map[], []), i);
  }

  /** A table given as a parameter is evaluated by the spline over its two
      columns, with the kind and fill value the material was built with. */
  lemma TableEverywhere(name: Value, entries: seq<(Value, Value)>, composition: Value, reference: Value,
                        kind: Value, fillValue: Value, i: int, t: real, spline: Spline)
    requires New(name, Dict(entries), composition, reference, kind, fillValue).Ok?
    requires 0 <= i < |entries| && IsSequence(entries[i].1)
    requires entries[i].0.Str? && entries[i].0.s != "name"
    requires entries[i].0.s != "composition" && entries[i].0.s != "reference"
    requires forall j :: 0 <= j < |entries| && j != i ==> entries[j].0.s != entries[i].0.s
    ensures var m, rows := New(name, Dict(entries), composition, reference, kind, fillValue).value, entries[i].1.items;
      && Rectangular(rows, 2) && |rows| > 3
      && entries[i].0.s in m.params
      && m.params[entries[i].0.s] == Table(ColumnOf(rows, 0), ColumnOf(rows, 1))
      && Evaluate(m, m.params[entries[i].0.s], t, spline) ==
           Ok(spline(ColumnOf(rows, 0), ColumnOf(rows, 1), Kind(kind).value, FillValue(fillValue).value, t))
  {
    var rows := entries[i].1.items;
    assert Classify(entries[i].1).Ok?;
    assert TableOf(rows).Ok?;
    IngestLastWins(entries, Ingested(map[], []), i);
  }

  /** A callable that raises at 273.15 is dropped with a diagnostic, and the
      rest of the material is still built. */
  lemma CallableSkipped(name: Value, entries: seq<(Value, Value)>, composition: Value, reference: Value,
                        kind: Value, fillValue: Value, i: int)
    requires New(name, Dict(entries), composition, reference, kind, fillValue).Ok?
    requires 0 <= i < |entries| && entries[i].1.Callable? && entries[i].1.call(SmokeTemperature).None?
    requires forall j :: 0 <= j < |entries| && j != i ==> entries[j].0.s != entries[i].0.s
    ensures var m := New(name, Dict(entries), composition, reference, kind, fillValue).value;
      entries[i].0.s !in m.params && entries[i].0.s in m.skipped
  {
    IngestLastWins(entries, Ingested(map[], []), i);
  }

  /** A number or a table given under "name" makes the constructor raise. */
  lemma NameParameterRefused(name: Value, entries: seq<(Value, Value)>, composition: Value, reference: Value,
                             kind: Value, fillValue: Value, i: int)
    requires AllStrKeys(entries) && 0 <= i < |entries| && entries[i].0 == Str("name") && IsNumber(entries[i].1)
    ensures New(name, Dict(entries), composition, reference, kind, fillValue).Err?
  {
    assert !Ingestible(entries) by {
      assert Classify(entries[i].1).value.value == Constant(AsNum(entries[i].1));
    }
  }
}
