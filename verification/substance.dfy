/** `Substance` of substance/substance.py: a named bag of validated parameters
    whose attribute assignments are routed and checked by `__setattr__`, and
    the elastic-modulus helper `jung` it shares with `Material`.
 */
module Substances {
  import opened Outcomes
  import opened PyValues

  /** The two slots of a `Substance`. */
  datatype Substance = Substance(name: string, parameters: map<string, Value>)

  /** The result of an assignment or deletion: the object afterwards, and the
      exception raised, if any.  A raise can leave part of the work done. */
  datatype Outcome = Done(state: Substance) | Raised(state: Substance, error: Error)

  /** What `validate` accepts for `key`: a `str` for "name"; otherwise a
      number, or a tuple or list of numbers. */
  predicate Acceptable(key: string, value: Value) {
    if key == "name" then value.Str?
    else IsNumber(value) || (IsSequence(value) && AllNumbers(value.items))
  }

  /** What a parameter map holds under `key` after validation: a `str` under
      "name"; otherwise a number or a tuple of numbers. */
  predicate Stored(key: string, value: Value) {
    if key == "name" then value.Str?
    else IsNumber(value) || (value.Tuple? && AllNumbers(value.items))
  }

  /** The stored form of an acceptable value: lists become tuples. */
  function Normalize(key: string, value: Value): Value {
    if key != "name" && value.List? then Tuple(value.items) else value
  }

  /** `Substance.validate(key, value)`. */
  function Validate(key: Value, value: Value): (r: Result<(string, Value)>)
    ensures r.Ok? <==> key.Str? && Acceptable(key.s, value)
    ensures r.Ok? ==> r.value == (key.s, Normalize(key.s, value)) && Stored(key.s, r.value.1)
    ensures r.Err? && (!key.Str? || key.s == "name" || IsSequence(value)) ==> r.error == AssertionError
    ensures r.Err? && key.Str? && key.s != "name" && !IsNumber(value) && !IsSequence(value) ==> r.error == TypeError
  {
    if !key.Str? then Err(AssertionError)
    else if key.s == "name" then
      if value.Str? then Ok((key.s, value)) else Err(AssertionError)
    else if IsNumber(value) then Ok((key.s, value))
    else if IsSequence(value) then
      if AllNumbers(value.items) then Ok((key.s, Tuple(value.items))) else Err(AssertionError)
    else Err(TypeError)
  }

  /** A parameter map after a (possibly interrupted) merge. */
  datatype Merged = Merged(params: map<string, Value>, error: Option<Error>)

  /** The loop of `__setattr__("parameters", value)`: each entry is validated
      and stored in turn; the first invalid entry stops the loop, and the
      entries before it stay stored. */
  function Merge(params: map<string, Value>, entries: seq<(Value, Value)>): (r: Merged)
    ensures r.error.None? <==> forall i :: 0 <= i < |entries| ==> Validate(entries[i].0, entries[i].1).Ok?
    decreases |entries|
  {
    if |entries| == 0 then Merged(params, None)
    else
      match Validate(entries[0].0, entries[0].1)
      case Err(e) => Merged(params, Some(e))
      case Ok((k, v)) =>
        var r := Merge(params[k := v], entries[1..]);
        assert forall i :: 0 <= i < |entries| - 1 ==> entries[1..][i] == entries[i + 1];
        r
  }

  /** A merge that stops at entry `f` has stored exactly the entries before it
      and reports the error of entry `f`. */
  lemma {:induction false} MergeStopsAtFirstError(params: map<string, Value>, entries: seq<(Value, Value)>, f: int)
    requires 0 <= f < |entries|
    requires forall i :: 0 <= i < f ==> Validate(entries[i].0, entries[i].1).Ok?
    requires Validate(entries[f].0, entries[f].1).Err?
    ensures Merge(params, entries).params == Merge(params, entries[..f]).params
    ensures Merge(params, entries).error == Some(Validate(entries[f].0, entries[f].1).error)
    decreases f
  {
    if f > 0 {
      var (k, v) := Validate(entries[0].0, entries[0].1).value;
      var tail := entries[1..];
      assert Merge(params, entries) == Merge(params[k := v], tail) by {
        MergeStep(params, entries);
      }
      assert Merge(params, entries[..f]) == Merge(params[k := v], tail[..f - 1]) by {
        MergeStep(params, entries[..f]);
        assert entries[..f][1..] == tail[..f - 1];
      }
      assert tail[f - 1] == entries[f];
      forall i | 0 <= i < f - 1 ensures Validate(tail[i].0, tail[i].1).Ok? {
        assert tail[i] == entries[i + 1];
      }
      MergeStopsAtFirstError(params[k := v], tail, f - 1);
    } else {
      assert entries[..f] == [];
      assert Merge(params, entries) == Merged(params, Some(Validate(entries[0].0, entries[0].1).error));
    }
  }

  /** A merge, complete or interrupted, keeps every key that no entry names,
      and adds only keys that some entry names. */
  lemma {:induction false} MergeFrame(params: map<string, Value>, entries: seq<(Value, Value)>, k: string)
    ensures k in params && (forall i :: 0 <= i < |entries| ==> entries[i].0 != Str(k)) ==>
      k in Merge(params, entries).params && Merge(params, entries).params[k] == params[k]
    ensures k in Merge(params, entries).params ==>
      k in params || exists i :: 0 <= i < |entries| && entries[i].0 == Str(k)
    decreases |entries|
  {
    if |entries| > 0 && Validate(entries[0].0, entries[0].1).Ok? {
      var (k0, v) := Validate(entries[0].0, entries[0].1).value;
      var tail := entries[1..];
      MergeStep(params, entries);
      MergeFrame(params[k0 := v], tail, k);
      if k in Merge(params, entries).params && k !in params && k != k0 {
        var i :| 0 <= i < |tail| && tail[i].0 == Str(k);
        assert entries[i + 1] == tail[i];
      }
      if k0 == k {
        assert entries[0].0 == Str(k);
      }
      if forall i :: 0 <= i < |entries| ==> entries[i].0 != Str(k) {
        assert forall i :: 0 <= i < |tail| ==> tail[i] == entries[i + 1];
      }
    }
  }

  /** A merge that accepts its first entry continues from the map that holds
      it. */
  lemma MergeStep(params: map<string, Value>, entries: seq<(Value, Value)>)
    requires |entries| > 0 && Validate(entries[0].0, entries[0].1).Ok?
    ensures var (k, v) := Validate(entries[0].0, entries[0].1).value;
      Merge(params, entries) == Merge(params[k := v], entries[1..])
  {
  }

  /** After a complete merge, a key holds the stored form of the value of the
      last entry that names it. */
  lemma {:induction false} MergeLastWins(params: map<string, Value>, entries: seq<(Value, Value)>, i: int)
    requires 0 <= i < |entries| && entries[i].0.Str?
    requires forall j :: 0 <= j < |entries| ==> Validate(entries[j].0, entries[j].1).Ok?
    requires forall j :: i < j < |entries| ==> !Names(entries[j], entries[i].0.s)
    ensures var k := entries[i].0.s;
      k in Merge(params, entries).params && Merge(params, entries).params[k] == Normalize(k, entries[i].1)
    decreases |entries|
  {
    var (k, v) := Validate(entries[0].0, entries[0].1).value;
    assert forall j :: 0 <= j < |entries| - 1 ==> entries[1..][j] == entries[j + 1];
    MergeStep(params, entries);
    if i > 0 {
      MergeLastWins(params[k := v], entries[1..], i - 1);
    } else {
      MergeFrame(params[k := v], entries[1..], k);
    }
  }

  /** Every key of a substance's parameter map holds a stored form. */
  predicate WellFormed(s: Substance) {
    forall k :: k in s.parameters ==> Stored(k, s.parameters[k])
  }

  /** A merge into a well-formed map leaves a well-formed map, complete or not. */
  lemma {:induction false} MergeWellFormed(params: map<string, Value>, entries: seq<(Value, Value)>)
    requires forall k :: k in params ==> Stored(k, params[k])
    ensures forall k :: k in Merge(params, entries).params ==> Stored(k, Merge(params, entries).params[k])
    decreases |entries|
  {
    if |entries| > 0 && Validate(entries[0].0, entries[0].1).Ok? {
      var (k, v) := Validate(entries[0].0, entries[0].1).value;
      MergeStep(params, entries);
      assert Stored(k, v);
      MergeWellFormed(params[k := v], entries[1..]);
    }
  }

  /** `Substance(name, **parameters)`: the name is assigned first, then the
      keyword arguments are merged into an empty map.  Python itself refuses a
      keyword argument called "name", which would bind `name` twice. */
  function New(name: Value, kwargs: seq<(string, Value)>): (r: Result<Substance>)
    ensures (exists i :: 0 <= i < |kwargs| && kwargs[i].0 == "name") ==> r == Err(TypeError)
    ensures r.Ok? <==> (forall i :: 0 <= i < |kwargs| ==> kwargs[i].0 != "name" && Acceptable(kwargs[i].0, kwargs[i].1))
                       && name.Str?
    ensures r.Ok? ==> r.value.name == name.s && WellFormed(r.value)
    ensures r.Ok? ==> r.value.parameters == Merge(map[], Entries(kwargs)).params
  {
    var entries := Entries(kwargs);
    if exists i :: 0 <= i < |kwargs| && kwargs[i].0 == "name" then Err(TypeError)
    else if !name.Str? then Err(AssertionError)
    else
      var m := Merge(map[], entries);
      MergeWellFormed(map[], entries);
      EntriesValid(kwargs);
      if m.error.Some? then Err(m.error.value)
      else
        assert WellFormed(Substance(name.s, m.params));
        Ok(Substance(name.s, m.params))
  }

  /** Keyword arguments as the entries of the dict `**parameters`. */
  function Entries(kwargs: seq<(string, Value)>): (entries: seq<(Value, Value)>)
    ensures |entries| == |kwargs|
    ensures forall i :: 0 <= i < |kwargs| ==> Names(entries[i], kwargs[i].0) && entries[i].1 == kwargs[i].1
  {
    seq(|kwargs|, i requires 0 <= i < |kwargs| => (Str(kwargs[i].0), kwargs[i].1))
  }

  lemma EntriesValid(kwargs: seq<(string, Value)>)
    ensures var entries := Entries(kwargs);
      (forall i :: 0 <= i < |entries| ==> Validate(entries[i].0, entries[i].1).Ok?) <==>
      (forall i :: 0 <= i < |kwargs| ==> Acceptable(kwargs[i].0, kwargs[i].1))
  {
    var entries := Entries(kwargs);
    assert forall i :: 0 <= i < |kwargs| ==> entries[i] == (Str(kwargs[i].0), kwargs[i].1);
  }

  /** A new substance holds exactly the keyword arguments, each under its
      name, with the value of its last occurrence in stored form. */
  lemma NewParameters(name: Value, kwargs: seq<(string, Value)>, i: int)
    requires New(name, kwargs).Ok? && 0 <= i < |kwargs|
    requires forall j :: i < j < |kwargs| ==> kwargs[j].0 != kwargs[i].0
    ensures var p := New(name, kwargs).value.parameters;
      kwargs[i].0 in p && p[kwargs[i].0] == Normalize(kwargs[i].0, kwargs[i].1)
  {
    var entries := Entries(kwargs);
    MergeLastWins(map[], entries, i);
  }

  /** A new substance has no parameter that no keyword argument names. */
  lemma NewOnlyNamed(name: Value, kwargs: seq<(string, Value)>, k: string)
    requires New(name, kwargs).Ok? && k in New(name, kwargs).value.parameters
    ensures exists i :: 0 <= i < |kwargs| && kwargs[i].0 == k
  {
    var entries := Entries(kwargs);
    MergeFrame(map[], entries, k);
    var i :| 0 <= i < |entries| && entries[i].0 == Str(k);
    assert Names(entries[i], kwargs[i].0);
  }

  /** Entry `e` of a dict has the key `k`. */
  predicate Names(e: (Value, Value), k: string) {
    e.0.Str? && e.0.s == k
  }

  /** The last entry that names the same key as entry `i`. */
  function LastNaming(entries: seq<(Value, Value)>, i: int): (j: int)
    requires 0 <= i < |entries| && entries[i].0.Str?
    ensures i <= j < |entries| && Names(entries[j], entries[i].0.s)
    ensures forall l :: j < l < |entries| ==> !Names(entries[l], entries[i].0.s)
    decreases |entries| - i
  {
    if exists l :: i < l < |entries| && Names(entries[l], entries[i].0.s) then
      var l :| i < l < |entries| && Names(entries[l], entries[i].0.s);
      LastNaming(entries, l)
    else i
  }

  /** `setattr(s, key, value)`. */
  function SetAttr(s: Substance, key: string, value: Value): (r: Outcome)
    ensures key == "name" ==>
      (r.Done? <==> value.Str?) && (r.Done? ==> r.state == s.(name := value.s)) && (r.Raised? ==> r.state == s)
    ensures key == "parameters" ==> r.state.name == s.name
    ensures key == "parameters" && !value.Dict? ==> r == Raised(s, AssertionError)
    ensures key == "parameters" && value.Dict? ==>
      (r.Done? <==> forall i :: 0 <= i < |value.entries| ==> Validate(value.entries[i].0, value.entries[i].1).Ok?)
    ensures key == "parameters" && value.Dict? ==>
      var m := Merge(s.parameters, value.entries);
      && r.state == s.(parameters := m.params)
      && (r.Raised? ==> m.error.Some? && r.error == m.error.value)
    ensures key != "name" && key != "parameters" ==>
      && (r.Done? <==> Acceptable(key, value))
      && (r.Done? ==> r.state == s.(parameters := s.parameters[key := Normalize(key, value)]))
      && (r.Raised? ==> r.state == s)
  {
    if key == "name" then
      match Validate(Str(key), value)
      case Err(e) => Raised(s, e)
      case Ok(_) => Done(s.(name := value.s))
    else if key == "parameters" then
      if !value.Dict? then Raised(s, AssertionError)
      else
        var m := Merge(s.parameters, value.entries);
        if m.error.None? then Done(s.(parameters := m.params))
        else Raised(s.(parameters := m.params), m.error.value)
    else
      match Validate(Str(key), value)
      case Err(e) => Raised(s, e)
      case Ok((k, v)) => Done(s.(parameters := s.parameters[k := v]))
  }

  /** Assigning `parameters` merges: keys that the assigned dict does not name
      keep their values, even when the merge is interrupted. */
  lemma ParametersMerge(s: Substance, entries: seq<(Value, Value)>, k: string)
    requires k in s.parameters
    requires forall i :: 0 <= i < |entries| ==> entries[i].0 != Str(k)
    ensures var r := SetAttr(s, "parameters", Dict(entries));
      k in r.state.parameters && r.state.parameters[k] == s.parameters[k]
  {
    MergeFrame(s.parameters, entries, k);
  }

  /** `del s.key`. */
  function DelAttr(s: Substance, key: string): (r: Outcome)
    ensures key == "name" <==> r.Raised?
    ensures r.Raised? ==> r == Raised(s, PlainException)
    ensures r.Done? ==> r.state.name == s.name && key !in r.state.parameters
    ensures r.Done? ==> forall k :: k != key ==> (k in r.state.parameters <==> k in s.parameters)
    ensures r.Done? ==> forall k :: k != key && k in s.parameters ==> r.state.parameters[k] == s.parameters[k]
  {
    if key == "name" then Raised(s, PlainException)
    else if key in s.parameters then Done(s.(parameters := s.parameters - {key}))
    else Done(s)
  }

  /** Assignments and deletions keep every stored parameter in stored form. */
  lemma Preserved(s: Substance, key: string, value: Value)
    requires WellFormed(s)
    ensures WellFormed(SetAttr(s, key, value).state)
    ensures WellFormed(DelAttr(s, key).state)
  {
    if key == "parameters" && value.Dict? {
      MergeWellFormed(s.parameters, value.entries);
      assert SetAttr(s, key, value).state.parameters == Merge(s.parameters, value.entries).params;
    }
  }

  /** Deleting a freshly assigned parameter restores the substance. */
  lemma {:induction false} DelUndoesSet(s: Substance, key: string, value: Value)
    requires key != "name" && key != "parameters" && key !in s.parameters
    requires SetAttr(s, key, value).Done?
    ensures DelAttr(SetAttr(s, key, value).state, key) == Done(s)
  {
    var t := SetAttr(s, key, value).state;
    assert t.parameters - {key} == s.parameters;
  }

  /** `jung(**kwargs)`: from Poisson's ratio `mu` and either Young's modulus
      `E` (which wins when both are given) or the shear modulus `G`. */
  function Jung(kwargs: map<string, Value>): (r: Result<real>)
    ensures var mu, e, g := Lookup(kwargs, "mu"), Lookup(kwargs, "E"), Lookup(kwargs, "G");
      && (!(IsNumber(mu) && IsPositive(mu)) ==> r == Err(AssertionError))
      && (IsNumber(mu) && IsPositive(mu) ==>
            && (IsNumber(e) ==> (r.Ok? <==> IsPositive(e)))
            && (IsNumber(e) && IsPositive(e) ==> r.Ok? && r.value * 2.0 * (AsNum(mu).value + 1.0) == AsNum(e).value)
            && (!IsNumber(e) && IsNumber(g) ==> (r.Ok? <==> IsPositive(g)))
            && (!IsNumber(e) && IsNumber(g) && IsPositive(g) ==> r.Ok? && r.value == 2.0 * AsNum(g).value * (AsNum(mu).value + 1.0))
            && (!IsNumber(e) && !IsNumber(g) ==> r == Err(PlainException)))
      && (r.Err? ==> r.error == AssertionError || r.error == PlainException)
      && (r.Ok? ==> r.value > 0.0)
  {
    var mu, e, g := Lookup(kwargs, "mu"), Lookup(kwargs, "E"), Lookup(kwargs, "G");
    if !(IsNumber(mu) && IsPositive(mu)) then Err(AssertionError)
    else
      var m := AsNum(mu).value;
      if IsNumber(e) then
        if IsPositive(e) then
          var d := 2.0 * (m + 1.0);
          var q := AsNum(e).value / d;
          assert q * d == AsNum(e).value;
          assert q > 0.0 by { PositiveQuotient(AsNum(e).value, d); }
          Ok(q)
        else Err(AssertionError)
      else if IsNumber(g) then
        if IsPositive(g) then Ok(2.0 * AsNum(g).value * (m + 1.0)) else Err(AssertionError)
      else Err(PlainException)
  }

  lemma PositiveQuotient(a: real, d: real)
    requires a > 0.0 && d > 0.0
    ensures a / d > 0.0
  {
  }

  /** The two conversions are inverse: E to G and back gives E, G to E and
      back gives G. */
  lemma JungRoundTrip(mu: real, e: real, g: real)
    requires mu > 0.0 && e > 0.0 && g > 0.0
    ensures var gOfE := Jung(map["mu" := Float(Some(mu)), "E" := Float(Some(e))]);
      gOfE.Ok? && Jung(map["mu" := Float(Some(mu)), "G" := Float(Some(gOfE.value))]) == Ok(e)
    ensures var eOfG := Jung(map["mu" := Float(Some(mu)), "G" := Float(Some(g))]);
      eOfG.Ok? && Jung(map["mu" := Float(Some(mu)), "E" := Float(Some(eOfG.value))]) == Ok(g)
  {
    var k1 := map["mu" := Float(Some(mu)), "E" := Float(Some(e))];
    assert Lookup(k1, "mu") == Float(Some(mu)) && Lookup(k1, "E") == Float(Some(e));
    var gv := Jung(k1).value;
    assert gv > 0.0 && gv * 2.0 * (mu + 1.0) == e;
    var k2 := map["mu" := Float(Some(mu)), "G" := Float(Some(gv))];
    assert Lookup(k2, "mu") == Float(Some(mu));
    assert Lookup(k2, "E") == NoneValue && !IsNumber(NoneValue);
    assert Lookup(k2, "G") == Float(Some(gv)) && IsNumber(Float(Some(gv))) && IsPositive(Float(Some(gv)));
    assert Jung(k2).value == 2.0 * gv * (mu + 1.0);
    assert 2.0 * gv * (mu + 1.0) == gv * 2.0 * (mu + 1.0);
    var k3 := map["mu" := Float(Some(mu)), "G" := Float(Some(g))];
    assert Lookup(k3, "mu") == Float(Some(mu));
    assert Lookup(k3, "E") == NoneValue && Lookup(k3, "G") == Float(Some(g));
    var ev := Jung(k3).value;
    assert ev == 2.0 * g * (mu + 1.0);
    var k4 := map["mu" := Float(Some(mu)), "E" := Float(Some(ev))];
    assert Lookup(k4, "mu") == Float(Some(mu));
    assert Lookup(k4, "E") == Float(Some(ev)) && IsNumber(Float(Some(ev))) && IsPositive(Float(Some(ev)));
    assert Jung(k4).value * 2.0 * (mu + 1.0) == ev;
    FactorCancels(Jung(k4).value, g, 2.0 * (mu + 1.0));
  }

  lemma FactorCancels(x: real, y: real, d: real)
    requires d > 0.0 && x * d == y * d
    ensures x == y
  {
  }
}
