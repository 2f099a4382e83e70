/** An excerpt of the reference table of substance/hardness.py (the rows
    around HB 229 and around HB 143) and the conversions it determines.
 */
module HardnessTable {
  import opened Outcomes
  import opened PyValues
  import Interp
  import Stats
  import opened Hardness

  /** Rows 179-184 and 280-284 of the table, in table order. */
  const Excerpt: seq<Row> := [
    Row(3.97, Some(232.0), Some(62.1), Some(22.6), Some(98.7), Some(233.0), Some(33.0)),
    Row(3.98, Some(231.0), Some(62.0), Some(22.4), Some(98.6), Some(231.0), Some(32.8)),
    Row(3.99, Some(230.0), Some(61.9), Some(22.2), Some(98.4), Some(230.0), Some(32.6)),
    Row(4.00, Some(229.0), Some(61.8), Some(22.0), Some(98.2), Some(229.0), Some(32.5)),
    Row(4.01, Some(228.0), Some(61.7), Some(21.8), Some(98.1), Some(228.0), Some(32.3)),
    Row(4.02, Some(226.0), Some(61.6), Some(21.6), Some(97.9), Some(227.0), Some(32.1)),
    Row(4.98, Some(144.0), Some(50.0), None, Some(77.9), Some(144.0), Some(20.6)),
    Row(4.99, Some(143.0), Some(49.8), None, Some(77.6), Some(143.0), Some(20.6)),
    Row(5.00, Some(143.0), None, None, Some(77.4), Some(143.0), Some(20.6)),
    Row(5.01, Some(142.0), None, None, Some(77.2), Some(142.0), None),
    Row(5.02, Some(141.0), None, None, Some(77.0), Some(141.0), None)
  ]

  /** Every row index of the excerpt, spelled out. */
  lemma RowIndex(j: int)
    requires 0 <= j < |Excerpt|
    ensures j == 0 || j == 1 || j == 2 || j == 3 || j == 4 || j == 5 || j == 6 || j == 7 || j == 8 || j == 9 || j == 10
  {
  }

  /** All 30 pair interpolants of the excerpt can be built: every column has
      two distinct finite readings in its first two rows. */
  lemma ExcerptBuilds()
    ensures Build(Excerpt).Ok?
  {
    forall a, b | a in Scales && b in Scales && a != b
      ensures PairInterpolant(Excerpt, a, b).Ok?
    {
      PairBuilds(a, b);
    }
  }

  lemma PairBuilds(a: Scale, b: Scale)
    ensures PairInterpolant(Excerpt, a, b).Ok?
  {
    var xc := Column(Excerpt, a);
    var r0, r1 := Excerpt[0], Excerpt[1];
    assert Cell(r0, a).Some? && Cell(r1, a).Some? && Cell(r0, a) != Cell(r1, a);
    assert xc[0] == Cell(r0, a) && xc[1] == Cell(r1, a);
    assert xc[0] in xc && xc[1] in xc;
    Interp.TwoReadingsBuild(xc, Column(Excerpt, b), "mean", Cell(r0, a).value, Cell(r1, a).value);
  }

  lemma Gap229()
    ensures Gap(Excerpt, HB, 229.0, 230.0)
  {
    forall j | 0 <= j < |Excerpt| && Cell(Excerpt[j], HB).Some? ensures !(229.0 < Cell(Excerpt[j], HB).value < 230.0) {
      RowIndex(j);
    }
  }

  lemma Rows229(b: Scale)
    ensures Uniform(Excerpt, HB, 229.0, b, Cell(Excerpt[3], b))
    ensures Readings(Excerpt, HB, 230.0, b)
  {
    forall j | 0 <= j < |Excerpt| && Cell(Excerpt[j], HB) == Some(229.0) ensures Cell(Excerpt[j], b) == Cell(Excerpt[3], b) {
      RowIndex(j);
    }
    forall j | 0 <= j < |Excerpt| && Cell(Excerpt[j], HB) == Some(230.0) ensures Cell(Excerpt[j], b).Some? {
      RowIndex(j);
    }
  }

  lemma Cells229(b: Scale)
    ensures Cell(Excerpt[3], HB) == Some(229.0) && Cell(Excerpt[2], HB) == Some(230.0)
    ensures Cell(Excerpt[3], b).Some?
  {
  }

  /** HB 229 (row 182) converts to that row's own reading on every other
      scale: the next larger HB reading, 230, has all its readings. */
  lemma AtHB229(b: Scale)
    requires b != HB
    ensures PairInterpolant(Excerpt, HB, b).Ok?
    ensures Interp.Eval(PairInterpolant(Excerpt, HB, b).value, Some(229.0)) == Cell(Excerpt[3], b)
  {
    PairBuilds(HB, b);
    Gap229();
    Rows229(b);
    Cells229(b);
    ConvertsRow(Excerpt, HB, b, 3, 229.0, 2, 230.0);
  }

  /** The readings of row `r` on every scale but `a`, with `v` on `a`. */
  function RowReadings(r: Row, a: Scale, v: Value): (m: map<Scale, Value>)
    ensures forall s :: s in m
  {
    forall s: Scale ensures s in Scales { ScaleNames(s, ""); }
    map s | s in Scales :: if s == a then v else Float(Cell(r, s))
  }

  lemma Row182()
    ensures RowReadings(Excerpt[3], HB, Int(229)) ==
      map[HB := Int(229), HRA := Float(Some(61.8)), HRC := Float(Some(22.0)), HRB := Float(Some(98.2)),
          HV := Float(Some(229.0)), HSD := Float(Some(32.5))]
  {
    forall s: Scale ensures s in Scales { ScaleNames(s, ""); }
  }

  lemma AtHB229InConverter(b: Scale)
    requires b != HB
    ensures Build(Excerpt).Ok?
    ensures Interp.Eval(Build(Excerpt).value.pairs[(HB, b)], Some(229.0)) == Cell(Excerpt[3], b)
  {
    ExcerptBuilds();
    AtHB229(b);
  }

  /** `Hardness.convert(HB=229)` reproduces row 182 of the table. */
  lemma ConvertHB229()
    ensures Build(Excerpt).Ok?
    ensures Convert(Build(Excerpt).value, [("HB", Int(229))]) ==
      Ok(map[HB := Int(229), HRA := Float(Some(61.8)), HRC := Float(Some(22.0)), HRB := Float(Some(98.2)),
             HV := Float(Some(229.0)), HSD := Float(Some(32.5))])
  {
    ExcerptBuilds();
    var c := Build(Excerpt).value;
    var kw := [("HB", Int(229))];
    assert Validate(kw) == Ok((HB, Int(229)));
    var m := RowReadings(Excerpt[3], HB, Int(229));
    assert AsNum(Int(229)) == Some(229.0);
    forall b | b != HB ensures m[b] == Float(Interp.Eval(c.pairs[(HB, b)], Some(229.0))) {
      AtHB229InConverter(b);
    }
    ConvertResult(c, kw, m);
    Row182();
  }

  const HBColumn: seq<Num> := [Some(232.0), Some(231.0), Some(230.0), Some(229.0), Some(228.0), Some(226.0),
                               Some(144.0), Some(143.0), Some(143.0), Some(142.0), Some(141.0)]
  const HRBColumn: seq<Num> := [Some(98.7), Some(98.6), Some(98.4), Some(98.2), Some(98.1), Some(97.9),
                                Some(77.9), Some(77.6), Some(77.4), Some(77.2), Some(77.0)]

  lemma Columns()
    ensures Column(Excerpt, HB) == HBColumn
    ensures Column(Excerpt, HRB) == HRBColumn
  {
  }

  /** The two rows reading HB 143 read HRB 77.6 and 77.4, in that order. */
  lemma GroupHB143()
    ensures Interp.Group(Column(Excerpt, HB), Column(Excerpt, HRB), 143.0) == [Some(77.6), Some(77.4)]
  {
    Columns();
    Interp.GroupAppend(HBColumn[..7], HRBColumn[..7], HBColumn[7..9], HRBColumn[7..9], 143.0);
    assert HBColumn[..7] + HBColumn[7..9] == HBColumn[..9];
    assert HRBColumn[..7] + HRBColumn[7..9] == HRBColumn[..9];
    Interp.GroupAppend(HBColumn[..9], HRBColumn[..9], HBColumn[9..], HRBColumn[9..], 143.0);
    assert HBColumn[..9] + HBColumn[9..] == HBColumn;
    assert HRBColumn[..9] + HRBColumn[9..] == HRBColumn;
    Interp.GroupMembers(HBColumn[..7], HRBColumn[..7], 143.0);
    Interp.GroupMembers(HBColumn[9..], HRBColumn[9..], 143.0);
    assert Interp.Group(HBColumn[7..9], HRBColumn[7..9], 143.0) == [Some(77.6), Some(77.4)];
  }

  lemma Gap143()
    ensures Gap(Excerpt, HB, 143.0, 144.0)
  {
    forall j | 0 <= j < |Excerpt| && Cell(Excerpt[j], HB).Some? ensures !(143.0 < Cell(Excerpt[j], HB).value < 144.0) {
      RowIndex(j);
    }
  }

  lemma Rows143(b: Scale)
    requires b != HRC
    ensures Readings(Excerpt, HB, 144.0, b)
    ensures b == HV || b == HSD ==> Uniform(Excerpt, HB, 143.0, b, Cell(Excerpt[7], b))
  {
    forall j | 0 <= j < |Excerpt| && Cell(Excerpt[j], HB) == Some(144.0) ensures Cell(Excerpt[j], b).Some? {
      RowIndex(j);
    }
    if b == HV || b == HSD {
      forall j | 0 <= j < |Excerpt| && Cell(Excerpt[j], HB) == Some(143.0) ensures Cell(Excerpt[j], b) == Cell(Excerpt[7], b) {
        RowIndex(j);
      }
    }
  }

  lemma Cells143()
    ensures Excerpt[6] == Row(4.98, Some(144.0), Some(50.0), None, Some(77.9), Some(144.0), Some(20.6))
    ensures Excerpt[7] == Row(4.99, Some(143.0), Some(49.8), None, Some(77.6), Some(143.0), Some(20.6))
    ensures Excerpt[8] == Row(5.00, Some(143.0), None, None, Some(77.4), Some(143.0), Some(20.6))
  {
  }

  /** What `convert(HB=143)` gives on each other scale. */
  function At143(b: Scale): Num {
    match b
    case HB => Some(143.0)
    case HRA => None
    case HRC => None
    case HRB => Some(77.5)
    case HV => Some(143.0)
    case HSD => Some(20.6)
  }

  /** HB 143 (rows 281-282) converts to NaN on HRA and HRC (a row has no
      reading there), to the mean 77.5 of the two HRB readings, and to the
      shared HV and HSD readings. */
  lemma AtHB143(b: Scale)
    requires b != HB
    ensures PairInterpolant(Excerpt, HB, b).Ok?
    ensures Interp.Eval(PairInterpolant(Excerpt, HB, b).value, Some(143.0)) == At143(b)
  {
    PairBuilds(HB, b);
    Cells143();
    if b == HRA {
      MissingRow(Excerpt, HB, b, 8, 143.0, 6, 144.0);
    } else if b == HRC {
      MissingRow(Excerpt, HB, b, 7, 143.0, 6, 144.0);
    } else {
      Gap143();
      Rows143(b);
      if b == HRB {
        var xc := Column(Excerpt, HB);
        assert xc[7] in xc;
        ConvertsReading(Excerpt, HB, b, 143.0, 6, 144.0);
        GroupHB143();
        Stats.MeanOfPair(77.6, 77.4);
      } else {
        ConvertsRow(Excerpt, HB, b, 7, 143.0, 6, 144.0);
      }
    }
  }

  function Readings143(): (m: map<Scale, Value>)
    ensures forall s :: s in m
  {
    forall s: Scale ensures s in Scales { ScaleNames(s, ""); }
    map s | s in Scales :: if s == HB then Int(143) else Float(At143(s))
  }

  lemma Readings143Literal()
    ensures Readings143() ==
      map[HB := Int(143), HRA := Float(None), HRC := Float(None), HRB := Float(Some(77.5)),
          HV := Float(Some(143.0)), HSD := Float(Some(20.6))]
  {
    forall s: Scale ensures s in Scales { ScaleNames(s, ""); }
  }

  /** `Hardness.convert(HB=143)`: two rows read HB 143, so HRB is their mean;
      HRA and HRC are NaN. */
  lemma ConvertHB143()
    ensures Build(Excerpt).Ok?
    ensures Convert(Build(Excerpt).value, [("HB", Int(143))]) ==
      Ok(map[HB := Int(143), HRA := Float(None), HRC := Float(None), HRB := Float(Some(77.5)),
             HV := Float(Some(143.0)), HSD := Float(Some(20.6))])
  {
    ExcerptBuilds();
    var c := Build(Excerpt).value;
    var kw := [("HB", Int(143))];
    assert Validate(kw) == Ok((HB, Int(143)));
    var m := Readings143();
    assert AsNum(Int(143)) == Some(143.0);
    forall b | b != HB ensures m[b] == Float(Interp.Eval(c.pairs[(HB, b)], Some(143.0))) {
      AtHB143InConverter(b);
    }
    ConvertResult(c, kw, m);
    Readings143Literal();
  }

  lemma AtHB143InConverter(b: Scale)
    requires b != HB
    ensures Build(Excerpt).Ok?
    ensures Interp.Eval(Build(Excerpt).value.pairs[(HB, b)], Some(143.0)) == At143(b)
  {
    ExcerptBuilds();
    AtHB143(b);
  }

  lemma TopHRC()
    ensures Top(Excerpt, HRC, 22.4, 22.6)
    ensures Uniform(Excerpt, HRC, 22.6, HB, Some(232.0))
    ensures Readings(Excerpt, HRC, 22.4, HB)
  {
    forall j | 0 <= j < |Excerpt| && Cell(Excerpt[j], HRC).Some?
      ensures Cell(Excerpt[j], HRC).value <= 22.4 || Cell(Excerpt[j], HRC).value == 22.6
    {
      RowIndex(j);
    }
    forall j | 0 <= j < |Excerpt| && Cell(Excerpt[j], HRC) == Some(22.6) ensures Cell(Excerpt[j], HB) == Some(232.0) {
      RowIndex(j);
    }
    forall j | 0 <= j < |Excerpt| && Cell(Excerpt[j], HRC) == Some(22.4) ensures Cell(Excerpt[j], HB).Some? {
      RowIndex(j);
    }
  }

  lemma Cells179()
    ensures Cell(Excerpt[0], HRC) == Some(22.6) && Cell(Excerpt[0], HB) == Some(232.0)
    ensures Cell(Excerpt[1], HRC) == Some(22.4) && Cell(Excerpt[10], HRC) == None
  {
  }

  /** The largest HRC reading of the excerpt, 22.6 (row 179), converts to HB
      232 on the closed domain; evaluated as the code does it, the HRC column's
      NaN cells make the same conversion NaN. */
  lemma LargestHRC()
    ensures PairInterpolant(Excerpt, HRC, HB).Ok?
    ensures Interp.Eval(PairInterpolant(Excerpt, HRC, HB).value, Some(22.6)) == Some(232.0)
    ensures Interp.EvalAsWritten(PairInterpolant(Excerpt, HRC, HB).value, Some(22.6)) == None
  {
    PairBuilds(HRC, HB);
    TopHRC();
    Cells179();
    LargestRow(Excerpt, HRC, HB, 0, 22.6, 1, 22.4, 10);
  }

  /** `convert(HRC=22.6)` on the excerpt: the corrected converter gives HB 232,
      the one the code builds gives NaN. */
  lemma LargestHRCConverted()
    ensures Build(Excerpt).Ok?
    ensures Convert(Build(Excerpt).value, [("HRC", Float(Some(22.6)))]).value[HB] == Float(Some(232.0))
    ensures ConvertAsWritten(Build(Excerpt).value, [("HRC", Float(Some(22.6)))]).value[HB] == Float(None)
  {
    ExcerptBuilds();
    var kwargs := [("HRC", Float(Some(22.6)))];
    assert Validate(kwargs) == Ok((HRC, Float(Some(22.6))));
    assert AsNum(Float(Some(22.6))) == Some(22.6);
    PairOfConvert(Excerpt, kwargs, HB);
    LargestHRC();
  }
}
