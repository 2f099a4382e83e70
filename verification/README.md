# substance — a Dafny model of hardness conversion, substances and materials

This project models the core of the `substance` Python package:

- **Hardness conversion** (`substance/hardness.py`). A reference table of
  Brinell (HB), Rockwell A/C/B (HRA, HRC, HRB), Vickers (HV) and Shore (HSD)
  readings. For every ordered pair of scales, `interpolate` builds a piecewise
  linear interpolant:
  - duplicate source readings are collapsed by their mean (or median);
  - NaN (a missing reading) propagates;
  - a query outside the knots gives NaN.

  `Hardness.validate` / `convert` / `__init__` / `values` take exactly one
  keyword reading and return all six scales.
- **Substance** (`substance/substance.py`, class `Substance`). A name plus a
  parameter dictionary, whose entries are validated on every assignment
  (`validate`, `__setattr__`, `__delattr__`), and the Young/shear modulus
  relation `jung` (also a static method of `Material`, lines 302-318).
- **Material** (`substance/substance.py`, class `Material`):
  - the constructor, which turns each parameter into a constant, a
    two-column temperature table or a callable;
  - the `fill_value`, `kind`, `composition` and `reference` checks;
  - the `name` property.
- **`formula_to_dict`** (`substance/substance.py`): parses a chemical formula
  such as `"H2O"` into element counts.

Module layout:

| module | file | contents |
|---|---|---|
| `Outcomes` | `outcomes.dfy` | `Option`, the Python exceptions, `Result` |
| `PyValues` | `pyvalues.dfy` | dynamic Python values |
| `Stats` | `stats.dfy` | NaN-aware mean and median |
| `Interp` | `interp.dfy` | `interpolate` and the order-1 interpolant |
| `Hardness` | `hardness.dfy` | the `Hardness` class |
| `HardnessTable` | `hardness_table.dfy` | worked conversions on rows of the real table |
| `Substances` | `substance.dfy` | the `Substance` class |
| `Materials` | `material.dfy` | the `Material` class |
| `Formula` | `formula.dfy` | `formula_to_dict` |

How Python is represented:

- A Python float is `Option<real>`; `None` stands for NaN.
- An exception is the `Err` case of a `Result`.
- A mutating method returns the new object state.

Where a written description of the library and the code disagree, the model
follows the code:

- The grouping in `interpolate` averages over *all* rows with a given source
  reading, including rows whose target is NaN, so such a group is NaN. It does
  not first drop rows where either scale is missing.
- Assigning `parameters` validates and stores entries one at a time. An
  invalid entry raises after the earlier entries are already stored, so the
  merge is not atomic.
- Assigning an attribute other than `name` or `parameters` does not fail: it
  stores a new parameter.
- A tuple or list value with a non-number element raises `AssertionError`, not
  `TypeError`.
- Deleting a parameter that is absent is a no-op, not an error.
- The name of a `Substance` can be reassigned; only deleting it is forbidden.

## Model

| member | source | states |
|---|---|---|
| Stats.Mean | substance/hardness.py:464 | numpy mean: defined exactly when the group is non-empty and has no NaN, and then lies between the smallest and largest reading |
| Stats.Median | substance/hardness.py:466 | numpy median: defined under the same condition as the mean, and lies between the smallest and largest reading |
| Stats.Sort | substance/hardness.py:466 | the sort behind the median returns an ordered permutation of its input |
| Stats.PairGroup | substance/hardness.py:463-466 | for a group of two readings the mean and median strategies agree, and both give the midpoint |
| Interp.Knots | substance/hardness.py:461 | the finite unique source readings come out strictly increasing, and a value is a knot exactly when it occurs as a reading |
| Interp.GroupMembers | substance/hardness.py:464-466 | the group for a knot holds exactly the target readings of the rows with that source reading, and is non-empty exactly when the reading occurs |
| Interp.GroupAppend | substance/hardness.py:464-466 | grouping the concatenation of two tables concatenates their groups |
| Interp.Build | substance/hardness.py:456-468 | an interpolant is built exactly when the strategy is known and at least two unique readings exist (NaN counts as one); an unknown strategy raises UnboundLocalError |
| Interp.BuildKnots | substance/hardness.py:461 | the knots of a built interpolant are the finite unique readings, and a NaN knot is recorded exactly when a reading is NaN |
| Interp.AggregateBounds | substance/hardness.py:463-466 | an aggregate is NaN exactly when a member is NaN, and otherwise lies between two of the members |
| Interp.GroupAggregate | substance/hardness.py:464-466 | the value at a knot is NaN exactly when some row with that reading has a NaN target, and otherwise lies between two such rows' targets |
| Interp.BuildValues | substance/hardness.py:461-466 | the same statement for each knot value stored in a built interpolant |
| Interp.Eval | substance/hardness.py:468 | interp1d with bounds_error=False and fill_value=nan: a defined result needs a finite query inside the knot range |
| Interp.EvalOutside | substance/hardness.py:468 | a NaN query, a query outside the knot range, or fewer than two knots gives NaN |
| Interp.LerpBounds | substance/hardness.py:468 | linear interpolation between two points stays between their values |
| Interp.EvalInSegment | substance/hardness.py:468 | a query inside a segment with two defined ends lies between the end values; a NaN end makes the result NaN |
| Interp.EvalAtKnot | substance/hardness.py:468 | at a knot whose segment ends are defined, the interpolant returns the knot's own value |
| Interp.TwoReadingsBuild | substance/hardness.py:456-468 | two distinct finite readings of the source scale are enough for a known strategy to build |
| Interp.EvalAtReading | substance/hardness.py:456-468 | at a table reading that has a next-larger reading with defined targets, the interpolant returns the aggregate of that reading's rows |
| Interp.EvalAtLargestReading | substance/hardness.py:456-468 | at the largest finite reading, the corrected interpolant returns the aggregate of that reading's rows |
| Interp.EvalMissingReading | substance/hardness.py:464-468 | a reading whose group holds a NaN target, and that has a larger reading, converts to NaN |
| Interp.UniformGroup | substance/hardness.py:464-466 | when every row with a reading has the same target, both strategies return that target |
| Interp.EvalAsWritten | substance/hardness.py:461-468 | the code's evaluation over `numpy.unique`'s knots, with NaN sorted last and given the NaN aggregate of an empty group, Python's NaN-false bounds test, and scipy's interval search; a defined result needs a finite query inside the finite knot range |
| Interp.IntervalIsSegment | substance/hardness.py:468 | below the largest finite knot, scipy's search over the knots with the NaN knot appended finds the same interval as the search over the finite knots |
| Interp.AsWrittenAtLargestKnot | substance/hardness.py:461-468 | with a NaN knot present, the search at the largest finite knot ends on the interval reaching the NaN knot, so that query evaluates to NaN |
| Interp.AsWrittenAgrees | substance/hardness.py:461-468 | at every other query, NaN and out-of-range queries included, the code's evaluation equals the corrected one |
| Interp.AsWrittenLosesLargestReading | substance/hardness.py:461-468 | if the source column has a NaN, its largest finite reading converts to NaN |
| Hardness.ScaleNames | substance/hardness.py:474 | the six slot names parse back to their scales, and only those names parse |
| Hardness.Column | substance/hardness.py:458-459 | the column for a scale holds that scale's cell of every row, in table order |
| Hardness.Build | substance/hardness.py:476-510 | the 30 class-level interpolants exist exactly when every ordered pair of distinct scales builds, and each is that pair's interpolant |
| Hardness.Validate | substance/hardness.py:512-518 | a reading is accepted exactly when it is one keyword, naming a scale, with an int or float value; every refusal is an AssertionError |
| Hardness.Convert | substance/hardness.py:530-550 | convert accepts exactly what validate accepts; the result holds all six scales, passes the given value through unchanged, and gives each other scale by the pair interpolant |
| Hardness.ConvertAsWritten | substance/hardness.py:530-550 | convert as the code evaluates it: the same acceptance and errors, with each other scale given by the as-written pair interpolant |
| Hardness.ConvertAsWrittenDiffers | substance/hardness.py:461-468 | the code's convert gives NaN on a target scale exactly at the largest finite reading of a source column that has a NaN cell, and otherwise agrees with the corrected convert |
| Hardness.ConvertResult | substance/hardness.py:536-548 | any six-scale map meeting that description is the conversion |
| Hardness.ValuesAreConversion | substance/hardness.py:520-528 | constructing a Hardness succeeds exactly when convert does, and its values are the conversion |
| Hardness.NoChaining | substance/hardness.py:536-548 | a converted value depends only on the source and target columns of the table; no third scale is consulted |
| Hardness.ConvertsRow | substance/hardness.py:456-468 | a table reading whose rows agree on a target converts to that target, given a defined next reading |
| Hardness.ConvertsReading | substance/hardness.py:456-468 | a table reading converts to the mean of its rows' targets, given a defined next reading |
| Hardness.MissingRow | substance/hardness.py:464-468 | a reading with a NaN target in one of its rows converts to NaN when a larger reading exists |
| Hardness.LargestRow | substance/hardness.py:456-468 | at the largest reading of a scale with a NaN cell, the corrected interpolant returns the row's target and the as-written one returns NaN |
| HardnessTable.ExcerptBuilds | substance/hardness.py:179-184 | the excerpt of the table builds all 30 interpolants |
| HardnessTable.ConvertHB229 | substance/hardness.py:182 | HB 229 converts to HRA 61.8, HRC 22.0, HRB 98.2, HV 229 and HSD 32.5 |
| HardnessTable.GroupHB143 | substance/hardness.py:281-282 | the two HB 143 rows form the HRB group 77.6 and 77.4 |
| HardnessTable.ConvertHB143 | substance/hardness.py:280-284 | HB 143 converts to HRB 77.5 (the mean of its two rows), HV 143 and HSD 20.6; HRA and HRC are NaN because a row holds NaN there |
| HardnessTable.LargestHRCConverted | substance/hardness.py:179-184 | on the excerpt, convert(HRC=22.6) gives HB 232 in the corrected converter and NaN in the code's |
| HardnessTable.LargestHRC | substance/hardness.py:179-184 | in the excerpt, HRC 22.6 is the largest reading: the corrected interpolant gives HB 232 and the as-written one gives NaN |
| Substances.Validate | substance/substance.py:41-56 | accepts a str key with a str name, a number, or a sequence of numbers; sequences come back as tuples; each refusal raises the exception the code raises |
| Substances.Merge | substance/substance.py:62-68 | assigning a parameters dict finishes without error exactly when every entry validates |
| Substances.MergeStopsAtFirstError | substance/substance.py:66-68 | the first invalid entry raises its own error, and the entries before it stay stored |
| Substances.MergeFrame | substance/substance.py:62-68 | keys no entry names keep their values, and every stored key was there before or named by an entry |
| Substances.MergeLastWins | substance/substance.py:66-68 | a key gets the value of the last entry naming it |
| Substances.MergeWellFormed | substance/substance.py:62-68 | merging keeps every stored value in validated form |
| Substances.New | substance/substance.py:37-39 | construction succeeds exactly when the name is a str and every keyword is acceptable; a keyword called name is a TypeError; the parameters are the merged keywords |
| Substances.NewParameters | substance/substance.py:37-39 | each keyword appears among the parameters with its validated value |
| Substances.NewOnlyNamed | substance/substance.py:37-39 | every parameter comes from a keyword |
| Substances.EntriesValid | substance/substance.py:39 | all keywords validate exactly when each is acceptable |
| Substances.SetAttr | substance/substance.py:58-71 | name: set only to a str, a refusal changes nothing; parameters: anything but a dict is an AssertionError, and a dict leaves the state that the entry-by-entry merge reached, raising the first invalid entry's error; any other attribute: stored as a validated parameter, a refusal changes nothing |
| Substances.ParametersMerge | substance/substance.py:62-68 | assigning parameters keeps every existing key that no entry names |
| Substances.DelAttr | substance/substance.py:73-77 | deleting name always raises; otherwise the key is removed and nothing else changes |
| Substances.Preserved | substance/substance.py:58-77 | assignment and deletion keep the object well formed |
| Substances.DelUndoesSet | substance/substance.py:69-77 | deleting a freshly added parameter restores the previous object |
| Substances.Jung | substance/substance.py:80-95 | mu must be a positive number; E gives E / (2 (mu + 1)); otherwise G gives 2 G (mu + 1); a non-positive modulus is an AssertionError; with neither given, a plain Exception; any result is positive |
| Substances.JungRoundTrip | substance/substance.py:80-95 | converting E to G and back returns E, and converting G to E and back returns G |
| Materials.ColumnOf | substance/substance.py:254 | transposing a two-column table yields its temperatures and values in row order |
| Materials.TableOf | substance/substance.py:253-268 | a table is accepted exactly when it has two columns and more than three rows, and keeps the rows' temperatures and values; a flat list of numbers is an AssertionError |
| Materials.Classify | substance/substance.py:241-278 | a number becomes a constant; a sequence becomes a table; a callable is kept only when it answers at 273.15 K; anything else raises a plain Exception |
| Materials.Ingest | substance/substance.py:237-278 | the parameter loop succeeds exactly when every value is ingestible; it only adds named keys and never stores name |
| Materials.IngestLastWins | substance/substance.py:237-278 | an accepted value is stored under its key, and a callable that fails the probe is reported and left out |
| Materials.IngestKeeps | substance/substance.py:237-278 | keys no entry names keep their values, and earlier skipped keys remain reported |
| Materials.FillValue | substance/substance.py:232 | corrected check: fill_value is accepted exactly when it is NaN or "extrapolate" |
| Materials.FillValueAsWritten | substance/substance.py:232 | as written: only NaN passes; any other number is an AssertionError and "extrapolate" raises TypeError inside isnan |
| Materials.FillValueDiffers | substance/substance.py:232 | the two checks differ only at "extrapolate" |
| Materials.Composition | substance/substance.py:280-288 | None, or a dict of str keys to numbers in [0, 1], is kept; another dict is an AssertionError; any other type is a ValueError |
| Materials.Kind | substance/substance.py:231 | kind is accepted exactly when it is an int (bool included) in 0..3 |
| Materials.New | substance/substance.py:219-291 | with the corrected fill-value guard, the constructor succeeds exactly when name, kind, fill_value, parameters, composition and reference all pass their checks, which run in the source's order, and keeps the kind and the extrapolation choice |
| Materials.NewAsWritten | substance/substance.py:219-291 | the constructor as the code runs it accepts only a NaN fill value, and a non-number fill value raises TypeError once name and kind have passed |
| Materials.NewAsWrittenDiffers | substance/substance.py:232 | the two constructors agree unless fill_value is "extrapolate", where the code raises TypeError and the intended one succeeds whenever the later checks pass |
| Materials.SetName | substance/substance.py:297-300 | the name setter accepts exactly a str and changes nothing else |
| Materials.ConstantEverywhere | substance/substance.py:241-252 | a numeric parameter of a constructed material evaluates to that number at any temperature |
| Materials.TableEverywhere | substance/substance.py:253-268 | a table parameter of a constructed material is stored as its two columns and evaluated by the spline over them with the material's kind and fill value |
| Materials.CallableSkipped | substance/substance.py:269-274 | a callable that fails at 273.15 K is not stored, and is reported |
| Materials.NameParameterRefused | substance/substance.py:241-252 | a numeric parameter called name reaches the name setter and fails the construction |
| Formula.DigitRun | substance/substance.py:1097-1099 | the count digits are the maximal run of digits |
| Formula.Token | substance/substance.py:1089-1102 | each token consumes at least one character and has a count of at least 1 |
| Formula.Tally | substance/substance.py:1104-1107 | the result has exactly the symbols that occur in the formula |
| Formula.TallyIsTotal | substance/substance.py:1104-1107 | each symbol's count is the sum of the counts of its occurrences |
| Formula.ReadCount | substance/substance.py:1096-1099 | the inner loop reads the maximal digit run and its decimal value |
| Formula.ReadToken | substance/substance.py:1089-1102 | one outer iteration reads exactly the next token |
| Formula.Accumulate | substance/substance.py:1104-1107 | the symbol is present afterwards with its previous count (0 if new) plus the count; no other symbol is added or changed |
| Formula.FormulaToDict | substance/substance.py:1084-1109 | the loop returns the tally of the formula's tokens |
| Formula.TallyFromIsTally | substance/substance.py:1088-1107 | continuing the tally over the rest of a formula equals tallying all of its tokens |
| Formula.TokensOfRender | substance/substance.py:1088-1102 | rendering element symbols with explicit counts and reading the result back gives the tokens back |
| Formula.RenderedFormula | substance/substance.py:1084-1109 | the dictionary of a rendered formula sums each symbol's counts |
| Formula.Water | substance/substance.py:1084-1109 | "H2O" gives H 2 and O 1 |

## Left out

- Reading the table from spreadsheet files, `Material.hardness`, `help`,
  `show`, `main`, and the catalogue of predefined materials are left out. They
  are I/O, plotting, or data rather than logic.
- The second `Substance(dict)` class is left out. So are its `__add__`,
  `mol_mass`, `gas_const`, `Cp`, `excess_oxidizing` and `summary` methods,
  which sit beside `formula_to_dict`. They rely on floating-point physics
  tables outside the core.
- The Go port (`substance.go`) and the benchmark files are not part of this
  model.
- Infinities, float rounding and numpy scalar types are not modelled. Reals
  are exact. `int`, `float` and `bool` values are the only numbers, and
  `np.number` is treated like `float`.
- An `np.ndarray` parameter value is not modelled. Tuples and lists are.
- interp1d of `kind` 0, 2 or 3 over a material table is not modelled.
  Evaluating a table goes through a `Spline` function parameter. The
  interpolant's own construction errors are out of scope.
- Hardness.Convert: models the corrected interpolation of the first finding,
  and so do `Hardness.New` and `Hardness.Values`. At the largest finite
  reading of a scale with a NaN cell it gives the row's value where the code
  gives NaN. Hardness.ConvertAsWritten is the code's behaviour.
- Materials.New: models the corrected fill-value guard of the second
  finding. It accepts `fill_value="extrapolate"`, where the code raises
  TypeError. Materials.NewAsWritten is the code's behaviour.
- Materials.TableOf: a ragged table, or one with non-numeric cells, is
  reported as ValueError. numpy and scipy raise differently depending on the
  shape.
- A `fill_value` given as an array or a pair is not modelled. The corrected
  check accepts only NaN and "extrapolate".
- Materials.IngestLastWins: stated only for a key that no other entry names.
  A Python dict cannot repeat a key, so nothing is lost.
- Materials.ConstantEverywhere: stated for a key that no other entry names,
  as in a Python dict.
- Materials.CallableSkipped: stated for a key that no other entry names, as
  in a Python dict.
- Materials.New: a parameter called `composition` or `reference` is stored
  and then overwritten by the constructor. The model drops it from the
  parameters instead of modelling attribute shadowing.
- The private `_Material__name` attribute is not modelled. A parameter with
  that key would overwrite the name.
- Formula.Token: `str.islower` and `str.isdigit` are modelled on ASCII only.
  Unicode lowercase letters and digits, such as a superscript two, are not.
- Substances.MergeLastWins: stated for valid entries, with the key not
  renamed by a later entry. A failing merge is covered by
  MergeStopsAtFirstError.
- Assertions are modelled as always enabled. Running Python with `-O` would
  remove them.
- The class-level `__slots__` and `object.__setattr__` plumbing is not
  modelled. A `Substance` is its name and parameter map.

## Findings

| source | as written | input that shows it | evidently intended | confidence | as-written member | corrected member |
|---|---|---|---|---|---|---|
| substance/hardness.py:461-468 | `numpy.unique` sorts NaN after every finite reading, so the largest finite reading becomes an interior knot. Its right-hand segment runs to a NaN value. | `Hardness.convert(HRC=66.4)`: the HRC column holds NaN, and 66.4 is its largest reading (line 12, HB 712). The result is HB = NaN instead of 712. | the largest reading of a scale converts to the value in its own row | not executed | Interp.EvalAsWritten | Interp.Eval |
| substance/substance.py:232 | `isnan(fill_value)` runs first, and `isnan` of a string raises TypeError. | `Material("m", {}, fill_value="extrapolate")` raises TypeError. | "extrapolate" is accepted, as the second half of the condition says | not executed | Materials.FillValueAsWritten | Materials.FillValue |
