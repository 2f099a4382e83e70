/** `Substance.formula_to_dict` of substance/substance.py: a chemical formula
    such as "H2O" read as element symbols with optional decimal counts, the
    counts of a repeated symbol summed.  Characters are classified as ASCII.
 */
module Formula {

  predicate IsLower(c: char) { 'a' <= c <= 'z' }
  predicate IsUpper(c: char) { 'A' <= c <= 'Z' }
  predicate IsDigit(c: char) { '0' <= c <= '9' }

  function DigitValue(c: char): nat
    requires IsDigit(c)
  {
    (c as int - '0' as int) as nat
  }

  function DigitChar(d: nat): (c: char)
    requires d < 10
    ensures IsDigit(c) && DigitValue(c) == d
  {
    ('0' as int + d) as char
  }

  /** The length of the symbol at the head of `s`: two characters when the
      second is lower-case, otherwise one. */
  function AtomLength(s: string): (n: nat)
    requires |s| > 0
    ensures 1 <= n <= |s|
  {
    if |s| > 1 && IsLower(s[1]) then 2 else 1
  }

  /** The number of leading decimal digits of `s`. */
  function DigitRun(s: string): (n: nat)
    ensures n <= |s|
    ensures forall i :: 0 <= i < n ==> IsDigit(s[i])
    ensures n < |s| ==> !IsDigit(s[n])
  {
    if |s| > 0 && IsDigit(s[0]) then 1 + DigitRun(s[1..]) else 0
  }

  /** The value of a digit string read left to right, `count * 10 + d` per
      digit; the empty string reads 0. */
  function Number(s: string): nat
    requires forall i :: 0 <= i < |s| ==> IsDigit(s[i])
  {
    if |s| == 0 then 0 else Number(s[..|s| - 1]) * 10 + DigitValue(s[|s| - 1])
  }

  /** The first (symbol, count) pair of a non-empty formula and the text
      after it; a count that reads 0 (absent, or written as zeros) is 1. */
  function Token(s: string): (r: ((string, nat), string))
    requires |s| > 0
    ensures r.0.1 >= 1
    ensures |r.1| < |s|
  {
    var a := AtomLength(s);
    var d := DigitRun(s[a..]);
    var n := Number(s[a..][..d]);
    ((s[..a], if n == 0 then 1 else n), s[a..][d..])
  }

  /** The (symbol, count) pairs of a formula, in order. */
  function Tokens(s: string): seq<(string, nat)>
    decreases |s|
  {
    if |s| == 0 then [] else [Token(s).0] + Tokens(Token(s).1)
  }

  /** The symbols of a token list. */
  function Symbols(ts: seq<(string, nat)>): set<string> {
    if |ts| == 0 then {} else Symbols(ts[..|ts| - 1]) + {ts[|ts| - 1].0}
  }

  /** The counts of a token list summed per symbol, in order. */
  function Tally(ts: seq<(string, nat)>): (m: map<string, nat>)
    ensures m.Keys == Symbols(ts)
  {
    if |ts| == 0 then map[]
    else
      Add(Tally(ts[..|ts| - 1]), ts[|ts| - 1])
  }

  /** One pair added into a tally. */
  function Add(m: map<string, nat>, t: (string, nat)): (r: map<string, nat>)
    ensures r.Keys == m.Keys + {t.0}
  {
    m[t.0 := if t.0 in m then m[t.0] + t.1 else t.1]
  }

  /** The total count of symbol `a` in a token list. */
  function Total(ts: seq<(string, nat)>, a: string): nat {
    if |ts| == 0 then 0
    else Total(ts[..|ts| - 1], a) + (if ts[|ts| - 1].0 == a then ts[|ts| - 1].1 else 0)
  }

  /** Each symbol maps to the sum of its counts. */
  lemma {:induction false} TallyIsTotal(ts: seq<(string, nat)>, a: string)
    requires a in Tally(ts)
    ensures Tally(ts)[a] == Total(ts, a)
    decreases |ts|
  {
    var init := ts[..|ts| - 1];
    if a in Tally(init) {
      TallyIsTotal(init, a);
    } else if ts[|ts| - 1].0 == a {
      TotalAbsent(init, a);
    }
  }

  /** A symbol that does not occur has total 0. */
  lemma {:induction false} TotalAbsent(ts: seq<(string, nat)>, a: string)
    requires a !in Tally(ts)
    ensures Total(ts, a) == 0
    decreases |ts|
  {
    if |ts| > 0 {
      var init := ts[..|ts| - 1];
      assert forall i :: 0 <= i < |init| ==> init[i] == ts[i];
      TotalAbsent(init, a);
    }
  }

  /** The inner loop of `formula_to_dict`: the decimal count starting at
      `i`, ending at `j`. */
  method ReadCount(formula: string, i: nat) returns (count: nat, j: nat)
    requires i <= |formula|
    ensures i <= j <= |formula|
    ensures j - i == DigitRun(formula[i..])
    ensures count == Number(formula[i..][..j - i])
  {
    count := 0;
    j := i;
    while j < |formula| && IsDigit(formula[j])
      invariant i <= j <= |formula|
      invariant forall k :: i <= k < j ==> IsDigit(formula[k])
      invariant count == Number(formula[i..j])
      decreases |formula| - j
    {
      assert formula[i..j + 1][..j - i] == formula[i..j];
      count := count * 10 + DigitValue(formula[j]);
      j := j + 1;
    }
    DigitRunOf(formula[i..], j - i);
    assert formula[i..][..j - i] == formula[i..j];
  }

  /** One pass of the outer loop of `formula_to_dict`: the symbol at `i`
      and the count written after it, ending at `j`. */
  method ReadToken(formula: string, i: nat) returns (atom: string, count: nat, j: nat)
    requires i < |formula|
    ensures i < j <= |formula|
    ensures Token(formula[i..]) == ((atom, count), formula[j..])
  {
    ghost var s := formula[i..];
    var k := i;
    if k + 1 < |formula| && IsLower(formula[k + 1]) {
      atom := formula[k..k + 2];
      k := k + 2;
    } else {
      atom := formula[k..k + 1];
      k := k + 1;
    }
    assert atom == s[..AtomLength(s)] && formula[k..] == s[AtomLength(s)..];
    count, j := ReadCount(formula, k);
    assert formula[j..] == formula[k..][j - k..];
    if count == 0 {
      count := 1;
    }
  }

  /** The tail of the outer loop: a known symbol's count grows, a new
      symbol enters with its count. */
  method Accumulate(result: map<string, nat>, atom: string, count: nat) returns (r: map<string, nat>)
    ensures r.Keys == result.Keys + {atom}
    ensures r[atom] == (if atom in result then result[atom] else 0) + count
    ensures forall a :: a in result && a != atom ==> r[a] == result[a]
  {
    if atom in result {
      r := result[atom := result[atom] + count];
    } else {
      r := result[atom := count];
    }
  }

  /** A map that extends `m` by the symbol of `t` with its count added, and
      changes nothing else, is `Add(m, t)`. */
  lemma AddIsAccumulation(m: map<string, nat>, t: (string, nat), r: map<string, nat>)
    requires r.Keys == m.Keys + {t.0}
    requires r[t.0] == (if t.0 in m then m[t.0] else 0) + t.1
    requires forall a :: a in m && a != t.0 ==> r[a] == m[a]
    ensures r == Add(m, t)
  {
    assert r.Keys == Add(m, t).Keys;
  }

  /** The tokens of `s` added one by one into the tally `m`: the shape of
      the outer loop of `formula_to_dict`. */
  function TallyFrom(m: map<string, nat>, s: string): map<string, nat>
    decreases |s|
  {
    if |s| == 0 then m else TallyFrom(Add(m, Token(s).0), Token(s).1)
  }

  /** `formula_to_dict(formula)`: the symbols' counts summed in order. */
  method FormulaToDict(formula: string) returns (result: map<string, nat>)
    ensures result == Tally(Tokens(formula))
  {
    result := map[];
    var i := 0;
    while i < |formula|
      invariant 0 <= i <= |formula|
      invariant TallyFrom(result, formula[i..]) == TallyFrom(map[], formula)
      decreases |formula| - i
    {
      var atom, count, j := ReadToken(formula, i);
      var next := Accumulate(result, atom, count);
      AddIsAccumulation(result, (atom, count), next);
      result, i := next, j;
    }
    TallyFromIsTally([], formula);
    assert [] + Tokens(formula) == Tokens(formula);
  }

  /** Continuing a tally over the rest of a formula tallies the
      concatenated token lists. */
  lemma {:induction false} TallyFromIsTally(ts: seq<(string, nat)>, s: string)
    ensures TallyFrom(Tally(ts), s) == Tally(ts + Tokens(s))
    decreases |s|
  {
    if |s| == 0 {
      assert ts + Tokens(s) == ts;
    } else {
      var t := Token(s).0;
      var rest := Token(s).1;
      assert TallyFrom(Tally(ts), s) == TallyFrom(Add(Tally(ts), t), rest);
      TallyStep(ts, t);
      TallyFromIsTally(ts + [t], rest);
      TokensCons(ts, s);
    }
  }

  /** The tokens of a non-empty formula are its first token and the tokens
      after it, whatever precedes them. */
  lemma TokensCons(ts: seq<(string, nat)>, s: string)
    requires |s| > 0
    ensures (ts + [Token(s).0]) + Tokens(Token(s).1) == ts + Tokens(s)
  {
    var u := Tokens(Token(s).1);
    assert Tokens(s) == [Token(s).0] + u;
    assert (ts + [Token(s).0]) + u == ts + ([Token(s).0] + u);
  }

  /** Tallying one more pair adds its count to its symbol. */
  lemma TallyStep(ts: seq<(string, nat)>, t: (string, nat))
    ensures Tally(ts + [t]) == Add(Tally(ts), t)
  {
    assert (ts + [t])[..|ts|] == ts;
  }

  /** A maximal prefix of digits is the digit run. */
  lemma {:induction false} DigitRunOf(s: string, n: nat)
    requires n <= |s|
    requires forall k :: 0 <= k < n ==> IsDigit(s[k])
    requires n < |s| ==> !IsDigit(s[n])
    ensures DigitRun(s) == n
    decreases n
  {
    if n > 0 {
      assert forall k :: 0 <= k < n - 1 ==> s[1..][k] == s[k + 1];
      DigitRunOf(s[1..], n - 1);
    }
  }

  /** An element symbol as the tokenizer reads it: an upper-case letter,
      optionally followed by one lower-case letter. */
  predicate Symbol(a: string) {
    (|a| == 1 || |a| == 2) && IsUpper(a[0]) && (|a| == 2 ==> IsLower(a[1]))
  }

  /** The decimal digits of a positive count, without leading zeros. */
  function Decimal(n: nat): (d: string)
    requires n >= 1
    ensures |d| > 0 && IsDigit(d[0])
    ensures forall i :: 0 <= i < |d| ==> IsDigit(d[i])
    ensures Number(d) == n
  {
    if n < 10 then [DigitChar(n)]
    else
      var d := Decimal(n / 10) + [DigitChar(n % 10)];
      assert d[..|d| - 1] == Decimal(n / 10);
      d
  }

  /** A token list written out with every count explicit: "H2O1". */
  function Render(ts: seq<(string, nat)>): (s: string)
    requires forall i :: 0 <= i < |ts| ==> Symbol(ts[i].0) && ts[i].1 >= 1
    ensures |s| == 0 <==> |ts| == 0
    ensures |s| > 0 ==> IsUpper(s[0])
  {
    if |ts| == 0 then []
    else
      assert Symbol(ts[0].0);
      var s := ts[0].0 + Decimal(ts[0].1) + Render(ts[1..]);
      assert s[0] == ts[0].0[0];
      s
  }

  /** A symbol, its count and a text that starts with the next symbol (or
      is empty) read back as one token. */
  lemma TokenOfRendered(a: string, n: nat, rest: string)
    requires Symbol(a) && n >= 1
    requires |rest| > 0 ==> IsUpper(rest[0])
    ensures Token(a + Decimal(n) + rest) == ((a, n), rest)
  {
    var d := Decimal(n);
    var tail := d + rest;
    var s := a + d + rest;
    assert s == a + tail;
    assert s[|a|..] == tail && s[..|a|] == a;
    assert AtomLength(s) == |a| by {
      if |a| == 1 {
        assert s[1] == d[0];
      }
    }
    DigitsThenSymbol(d, rest);
  }

  /** A digit string followed by a symbol (or nothing) is a whole digit run. */
  lemma DigitsThenSymbol(d: string, rest: string)
    requires |d| > 0 && forall i :: 0 <= i < |d| ==> IsDigit(d[i])
    requires |rest| > 0 ==> IsUpper(rest[0])
    ensures DigitRun(d + rest) == |d|
    ensures (d + rest)[..|d|] == d && (d + rest)[|d|..] == rest
  {
    DigitRunOf(d + rest, |d|);
  }

  /** Tokenizing a rendered token list gives the list back. */
  lemma {:induction false} TokensOfRender(ts: seq<(string, nat)>)
    requires forall i :: 0 <= i < |ts| ==> Symbol(ts[i].0) && ts[i].1 >= 1
    ensures Tokens(Render(ts)) == ts
    decreases |ts|
  {
    if |ts| > 0 {
      TokenOfRendered(ts[0].0, ts[0].1, Render(ts[1..]));
      TokensOfRender(ts[1..]);
    }
  }

  /** `formula_to_dict` of a rendered formula is the tally of its tokens,
      each symbol mapped to the sum of its counts. */
  lemma RenderedFormula(ts: seq<(string, nat)>, a: string)
    requires forall i :: 0 <= i < |ts| ==> Symbol(ts[i].0) && ts[i].1 >= 1
    ensures Tally(Tokens(Render(ts))) == Tally(ts)
    ensures a in Tally(ts) ==> Tally(Tokens(Render(ts)))[a] == Total(ts, a)
  {
    TokensOfRender(ts);
    if a in Tally(ts) {
      TallyIsTotal(ts, a);
    }
  }

  /** The formula of water: two hydrogen atoms and one oxygen atom. */
  lemma Water()
    ensures Tally(Tokens("H2O")) == map["H" := 2, "O" := 1]
  {
    assert "H" + Decimal(2) + "O" == "H2O";
    TokenOfRendered("H", 2, "O");
    var o := "O";
    assert AtomLength(o) == 1 && o[1..] == [] && o[..1] == o;
    assert DigitRun(o[1..]) == 0 && Number(o[1..][..0]) == 0;
    assert Token("O") == (("O", 1), []);
    assert Tokens("O") == [("O", 1)];
    assert Tokens("H2O") == [("H", 2), ("O", 1)];
  }
}
