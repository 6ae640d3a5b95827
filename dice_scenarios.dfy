/**
 * Worked formulas: what `roll` and `rollDice` of script.js give for a few
 * concrete inputs, including the quirks of a leading `-`, of the empty
 * formula, of a formula already written with ` + -`, of a second `-` and of
 * a second `D`.
 */
module DiceScenarios {
  import opened Wrappers
  import opened Decimal
  import opened FormulaSyntax
  import opened DiceFormula

  /** Every sample is 0.5: a die of `m` faces shows `ceil(m / 2)`. */
  function Half(k: nat): real { 0.5 }

  // ---------------------------------------------------------------------------
  // Helpers: one step of the evaluation at a time
  // ---------------------------------------------------------------------------

  lemma LexText(piece: string, m: Captures)
    requires WellFormed(m) && Text(m) == piece
    ensures Lex(piece) == Some(m)
  {
    LexComplete("", m, "");
    assert "" + Text(m) + "" == piece;
  }

  lemma ParseOne(a: string, ta: Term)
    requires MatchTerm(a) == Some(ta)
    ensures ParseAll([a]) == Some([ta])
  {
    assert ParseAll([a][..0]) == Some([]);
    ParseAllSnoc([a], 0, [], ta);
    assert [a][..1] == [a];
    assert ParseAll([a]) == Some([] + [ta]);
    assert [] + [ta] == [ta];
  }

  lemma ParseTwo(a: string, b: string, ta: Term, tb: Term)
    requires MatchTerm(a) == Some(ta) && MatchTerm(b) == Some(tb)
    ensures ParseAll([a, b]) == Some([ta, tb])
  {
    ParseOne(a, ta);
    assert [a, b][..1] == [a];
    ParseAllSnoc([a, b], 1, [ta], tb);
    assert [a, b][..2] == [a, b];
    assert [ta] + [tb] == [ta, tb];
  }

  lemma ParseThree(a: string, b: string, c: string, ta: Term, tb: Term, tc: Term)
    requires MatchTerm(a) == Some(ta) && MatchTerm(b) == Some(tb) && MatchTerm(c) == Some(tc)
    ensures ParseAll([a, b, c]) == Some([ta, tb, tc])
  {
    ParseTwo(a, b, ta, tb);
    assert [a, b, c][..2] == [a, b];
    ParseAllSnoc([a, b, c], 2, [ta, tb], tc);
    assert [a, b, c][..3] == [a, b, c];
    assert [ta, tb] + [tc] == [ta, tb, tc];
  }

  lemma ExpandOne(t: Term, rand: nat -> real)
    ensures Expand([t], rand) == Step(Tally([], [], 0), t, rand)
  {
    ExpandSnoc([], t, rand);
    assert [] + [t] == [t];
  }

  lemma ExpandTwo(t: Term, u: Term, rand: nat -> real)
    ensures Expand([t, u], rand) == Step(Step(Tally([], [], 0), t, rand), u, rand)
  {
    ExpandOne(t, rand);
    ExpandSnoc([t], u, rand);
    assert [t] + [u] == [t, u];
  }

  lemma ExpandThree(t: Term, u: Term, v: Term, rand: nat -> real)
    ensures Expand([t, u, v], rand) == Step(Expand([t, u], rand), v, rand)
  {
    ExpandSnoc([t, u], v, rand);
    assert [t, u] + [v] == [t, u, v];
  }

  /** Two constants expand to their two signed values, each shown as a constant. */
  lemma ExpandTwoConstants(t: Term, u: Term, rand: nat -> real)
    requires t.Constant? && u.Constant?
    ensures Expand([t, u], rand) == Tally([t.sign * t.num, u.sign * u.num], [0, 0], 0)
  {
    ExpandTwo(t, u, rand);
    assert [] + [t.sign * t.num] + [u.sign * u.num] == [t.sign * t.num, u.sign * u.num];
    assert [] + [0] + [0] == [0, 0];
  }

  /** `roll` returns the expansion of the parsed pieces when it has entries. */
  lemma EvaluateOf(dice: string, ts: seq<Term>, rand: nat -> real, res: seq<int>, types: seq<nat>, draws: nat)
    requires ParseAll(Items(dice)) == Some(ts)
    requires Expand(ts, rand) == Tally(res, types, draws) && res != []
    ensures Evaluate(dice, rand) == Some(Outcome(res, types))
  {
  }

  /** A formula of two pieces around one `+`. */
  lemma SplitPair(p: string, before: string, after: string, q: string)
    requires '+' !in p && (p == [] || p[|p| - 1] != ' ')
    requires AllSpaces(before) && AllSpaces(after)
    requires '+' !in q && (q == [] || q[0] != ' ')
    ensures Split(p + (before + "+" + after) + q) == [p, q]
  {
    SplitAt(p, before, after, q);
    SplitNone(q);
  }

  /** Two `+` with only spaces between them leave an empty piece between the two pieces around them. */
  lemma SplitEmptyMiddle(p: string, before: string, after: string, gap: string, r: string)
    requires '+' !in p && (p == [] || p[|p| - 1] != ' ')
    requires AllSpaces(before) && AllSpaces(after) && AllSpaces(gap)
    requires '+' !in r && (r == [] || r[0] != ' ')
    ensures Split(p + (before + "+" + after) + ("+" + gap + r)) == [p, "", r]
  {
    var rest := "+" + gap + r;
    assert rest[0] == '+';
    SplitAt(p, before, after, rest);
    SplitLeadingPlus(gap, r);
    Cons(p, Split(rest), "", r);
  }

  /** A formula that starts with `+` has an empty first piece. */
  lemma SplitLeadingPlus(gap: string, r: string)
    requires AllSpaces(gap)
    requires '+' !in r && (r == [] || r[0] != ' ')
    ensures Split("+" + gap + r) == ["", r]
  {
    assert "+" + gap + r == "" + ("" + "+" + gap) + r;
    SplitPair("", "", gap, r);
  }

  lemma Cons(a: string, tail: seq<string>, b: string, c: string)
    requires tail == [b, c]
    ensures [a] + tail == [a, b, c]
  {
  }

  lemma MatchConstant(piece: string, minus: bool, digits: string, value: nat)
    requires digits != [] && AllDigits(digits) && DigitsValue(digits) == value
    requires piece == (if minus then "-" else "") + digits
    ensures MatchTerm(piece) == Some(Constant(if minus then -1 else 1, value))
  {
    var m := Captures(minus, Some(digits), None);
    assert Text(m) == (if minus then "-" else "") + digits + "";
    LexText(piece, m);
  }

  lemma MatchGroup(piece: string, minus: bool, count: string, faces: string, num: nat, max: nat)
    requires count != [] && AllDigits(count) && DigitsValue(count) == num
    requires faces != [] && AllDigits(faces) && DigitsValue(faces) == max
    requires piece == (if minus then "-" else "") + count + ("d" + faces)
    ensures MatchTerm(piece) == Some(DieGroup(if minus then -1 else 1, num, max))
  {
    var m := Captures(minus, Some(count), Some(faces));
    LexText(piece, m);
  }

  /** The empty piece matches with every group absent: the constant 1. */
  lemma MatchEmpty()
    ensures MatchTerm("") == Some(Constant(1, 1))
  {
    var m := Captures(false, None, None);
    assert Text(m) == "";
    LexText("", m);
    assert DigitsValue("1") == 1;
  }

  // ---------------------------------------------------------------------------
  // Formulas
  // ---------------------------------------------------------------------------

  /** A string of digits holds none of the characters the rewrites and the split look for. */
  lemma DigitsPlain(ds: string)
    requires AllDigits(ds)
    ensures '-' !in ds && 'D' !in ds && '+' !in ds
    ensures ds == [] || ds[0] != ' '
  {
    forall i | 0 <= i < |ds|
      ensures ds[i] != '-' && ds[i] != 'D' && ds[i] != '+'
    {
      assert IsDigit(ds[i]);
    }
  }

  lemma ParsePlainNumber(digits: string, v: nat)
    requires digits != [] && AllDigits(digits) && v == DigitsValue(digits)
    ensures ParseAll(Items(digits)) == Some([Constant(1, v)])
  {
    DigitsPlain(digits);
    NormalizePlain(digits);
    SplitNone(digits);
    assert digits == "" + digits;
    MatchConstant(digits, false, digits, v);
    ParseOne(digits, Constant(1, v));
  }

  /** A formula that parses to one constant gives that constant's value. */
  lemma OneConstant(dice: string, v: nat, rand: nat -> real)
    requires ParseAll(Items(dice)) == Some([Constant(1, v)])
    ensures Evaluate(dice, rand) == Some(Outcome([v], [0]))
  {
    ExpandOne(Constant(1, v), rand);
    assert [] + [1 * v] == [v] && [] + [0] == [0];
    EvaluateOf(dice, [Constant(1, v)], rand, [v], [0], 0);
  }

  /** A plain number is a constant, whatever the samples. */
  lemma PlainNumber(digits: string, v: nat, rand: nat -> real)
    requires digits != [] && AllDigits(digits) && v == DigitsValue(digits)
    ensures Evaluate(digits, rand) == Some(Outcome([v], [0]))
  {
    ParsePlainNumber(digits, v);
    OneConstant(digits, v, rand);
  }

  lemma ItemsLeadingMinus(digits: string)
    requires digits != [] && AllDigits(digits)
    ensures Items("-" + digits) == ["", "-" + digits]
  {
    DigitsPlain(digits);
    var neg := "-" + digits;
    assert neg == "" + "-" + "" + digits;
    NormalizeMinusAt("", "", digits);
    var n := "+ -" + digits;
    assert Normalize(neg) == n;
    assert n == "" + ("" + "+" + " ") + neg;
    assert '+' !in neg;
    SplitPair("", "", " ", neg);
  }

  lemma ParseLeadingMinus(digits: string, v: nat)
    requires digits != [] && AllDigits(digits) && v == DigitsValue(digits)
    ensures ParseAll(Items("-" + digits)) == Some([Constant(1, 1), Constant(-1, v)])
  {
    ItemsLeadingMinus(digits);
    MatchEmpty();
    MatchConstant("-" + digits, true, digits, v);
    ParseTwo("", "-" + digits, Constant(1, 1), Constant(-1, v));
  }

  /**
   * A leading `-` before the digits of `v`: it becomes `+ -`, and the empty
   * first piece is the constant 1, so `-v` gives 1 - v and not -v.
   */
  lemma LeadingMinus(digits: string, v: nat, rand: nat -> real)
    requires digits != [] && AllDigits(digits) && v == DigitsValue(digits)
    ensures Evaluate("-" + digits, rand) == Some(Outcome([1, -(v as int)], [0, 0]))
  {
    ParseLeadingMinus(digits, v);
    OneMinusConstant("-" + digits, v, rand);
  }

  /** A formula that parses to the constant 1 followed by `-v` gives the entries 1 and `-v`. */
  lemma OneMinusConstant(dice: string, v: nat, rand: nat -> real)
    requires ParseAll(Items(dice)) == Some([Constant(1, 1), Constant(-1, v)])
    ensures Evaluate(dice, rand) == Some(Outcome([1, -(v as int)], [0, 0]))
  {
    ExpandLeadingMinus(v, rand);
    EvaluateOf(dice, [Constant(1, 1), Constant(-1, v)], rand, [1, -(v as int)], [0, 0], 0);
  }

  lemma ExpandLeadingMinus(v: nat, rand: nat -> real)
    ensures Expand([Constant(1, 1), Constant(-1, v)], rand) == Tally([1, -(v as int)], [0, 0], 0)
  {
    ExpandTwoConstants(Constant(1, 1), Constant(-1, v), rand);
  }

  /** The empty formula is one empty piece, the constant 1. */
  lemma EmptyFormula(dice: string, rand: nat -> real)
    requires dice == ""
    ensures Evaluate(dice, rand) == Some(Outcome([1], [0]))
  {
    SplitNone("");
    MatchEmpty();
    ParseOne("", Constant(1, 1));
    ExpandOne(Constant(1, 1), rand);
    assert [] + [1 * 1] == [1] && [] + [0] == [0];
    EvaluateOf(dice, [Constant(1, 1)], rand, [1], [0], 0);
  }

  lemma NormalizeTwoD6MinusOneD4(dice: string, gap: string)
    requires gap == "" || gap == " "
    requires dice == "2d6" + gap + "-" + gap + "1d4"
    ensures Normalize(dice) == "2d6" + gap + "+ -1d4"
  {
    NormalizeMinusAt("2d6" + gap, gap, "1d4");
    assert "2d6" + gap + "+ -" + "1d4" == "2d6" + gap + "+ -1d4";
  }

  lemma SplitTwoD6MinusOneD4(n: string, gap: string)
    requires gap == "" || gap == " "
    requires n == "2d6" + gap + "+ -1d4"
    ensures Split(n) == ["2d6", "-1d4"]
  {
    assert n == "2d6" + (gap + "+" + " ") + "-1d4";
    SplitPair("2d6", gap, " ", "-1d4");
  }

  lemma ParseTwoD6MinusOneD4(items: seq<string>)
    requires items == ["2d6", "-1d4"]
    ensures ParseAll(items) == Some([DieGroup(1, 2, 6), DieGroup(-1, 1, 4)])
  {
    MatchTwoD6();
    MatchMinusOneD4();
    ParseTwo("2d6", "-1d4", DieGroup(1, 2, 6), DieGroup(-1, 1, 4));
  }

  lemma MatchTwoD6()
    ensures MatchTerm("2d6") == Some(DieGroup(1, 2, 6))
  {
    assert DigitsValue("2") == 2 && DigitsValue("6") == 6;
    MatchGroup("2d6", false, "2", "6", 2, 6);
  }

  lemma MatchMinusOneD4()
    ensures MatchTerm("-1d4") == Some(DieGroup(-1, 1, 4))
  {
    assert DigitsValue("1") == 1 && DigitsValue("4") == 4;
    MatchGroup("-1d4", true, "1", "4", 1, 4);
  }

  lemma ExpandTwoD6MinusOneD4(ts: seq<Term>, rand: nat -> real)
    requires ts == [DieGroup(1, 2, 6), DieGroup(-1, 1, 4)]
    requires rand == Half
    ensures Expand(ts, rand) == Tally([3, 3, -2], [6, 6, 4], 3)
  {
    ExpandTwo(DieGroup(1, 2, 6), DieGroup(-1, 1, 4), rand);
    assert Draw(6, 0.5) == 3 && Draw(4, 0.5) == 2;
    assert Rolls(1, 6, 2, rand, 0) == [3, 3];
    assert Rolls(-1, 4, 1, rand, 2) == [-2];
    assert Repeat(6, 2) == [6, 6] && Repeat(4, 1) == [4];
  }

  /**
   * Two six-sided dice minus a four-sided one, written with or without spaces
   * around the `-`, every sample 0.5: 3 + 3 - 2. Both spellings normalise to
   * the pieces `2d6` and `-1d4`.
   */
  lemma TwoD6MinusOneD4(dice: string, gap: string)
    requires gap == "" || gap == " "
    requires dice == "2d6" + gap + "-" + gap + "1d4"
    ensures Items(dice) == ["2d6", "-1d4"]
    ensures Evaluate(dice, Half) == Some(Outcome([3, 3, -2], [6, 6, 4]))
  {
    NormalizeTwoD6MinusOneD4(dice, gap);
    SplitTwoD6MinusOneD4(Normalize(dice), gap);
    ParseTwoD6MinusOneD4(Items(dice));
    ExpandTwoD6MinusOneD4([DieGroup(1, 2, 6), DieGroup(-1, 1, 4)], Half);
    EvaluateOf(dice, [DieGroup(1, 2, 6), DieGroup(-1, 1, 4)], Half, [3, 3, -2], [6, 6, 4], 3);
  }

  lemma NormalizeDirectMinus(dice: string)
    requires dice == "2d6 + -1d4"
    ensures Normalize(dice) == "2d6 + + -1d4"
  {
    assert dice == "2d6 + " + "-" + "" + "1d4";
    NormalizeMinusAt("2d6 + ", "", "1d4");
    assert "2d6 + " + "+ -" + "1d4" == "2d6 + + -1d4";
  }

  lemma SplitDirectMinus(n: string)
    requires n == "2d6 + + -1d4"
    ensures Split(n) == ["2d6", "", "-1d4"]
  {
    assert n == "2d6" + (" " + "+" + " ") + ("+" + " " + "-1d4");
    SplitEmptyMiddle("2d6", " ", " ", " ", "-1d4");
  }

  lemma ParseDirectMinus(items: seq<string>)
    requires items == ["2d6", "", "-1d4"]
    ensures ParseAll(items) == Some([DieGroup(1, 2, 6), Constant(1, 1), DieGroup(-1, 1, 4)])
  {
    MatchTwoD6();
    MatchEmpty();
    MatchMinusOneD4();
    ParseThree("2d6", "", "-1d4", DieGroup(1, 2, 6), Constant(1, 1), DieGroup(-1, 1, 4));
  }

  lemma ExpandDirectMinus(ts: seq<Term>, rand: nat -> real)
    requires ts == [DieGroup(1, 2, 6), Constant(1, 1), DieGroup(-1, 1, 4)]
    requires rand == Half
    ensures Expand(ts, rand) == Tally([3, 3, 1, -2], [6, 6, 0, 4], 3)
  {
    ExpandTwoOneConstant(rand);
    ExpandThree(DieGroup(1, 2, 6), Constant(1, 1), DieGroup(-1, 1, 4), rand);
    assert Draw(4, 0.5) == 2;
    assert Rolls(-1, 4, 1, rand, 2) == [-2];
    assert Repeat(4, 1) == [4];
  }

  lemma ExpandTwoOneConstant(rand: nat -> real)
    requires rand == Half
    ensures Expand([DieGroup(1, 2, 6), Constant(1, 1)], rand) == Tally([3, 3, 1], [6, 6, 0], 2)
  {
    ExpandTwo(DieGroup(1, 2, 6), Constant(1, 1), rand);
    assert Draw(6, 0.5) == 3;
    assert Rolls(1, 6, 2, rand, 0) == [3, 3];
    assert Repeat(6, 2) == [6, 6];
  }

  /**
   * `2d6 + -1d4` typed as such: its `-` is rewritten as well, to `+ + -1d4`,
   * which leaves an empty piece, the constant 1, between the two groups.
   */
  lemma DirectPlusMinus(dice: string)
    requires dice == "2d6 + -1d4"
    ensures Items(dice) == ["2d6", "", "-1d4"]
    ensures Evaluate(dice, Half) == Some(Outcome([3, 3, 1, -2], [6, 6, 0, 4]))
  {
    NormalizeDirectMinus(dice);
    SplitDirectMinus(Normalize(dice));
    ParseDirectMinus(Items(dice));
    ExpandDirectMinus([DieGroup(1, 2, 6), Constant(1, 1), DieGroup(-1, 1, 4)], Half);
    EvaluateOf(dice, [DieGroup(1, 2, 6), Constant(1, 1), DieGroup(-1, 1, 4)], Half, [3, 3, 1, -2], [6, 6, 0, 4], 3);
  }

  lemma NormalizeSecondMinus(dice: string)
    requires dice == "2d6 - 1d4 - 1"
    ensures Normalize(dice) == "2d6 + -1d4 - 1"
  {
    var before, after := "2d6 ", "1d4 - 1";
    assert dice == before + "-" + " " + after;
    assert '-' !in before && 'D' !in before && 'D' !in after && after[0] != ' ';
    NormalizeMinusAt(before, " ", after);
    assert before + "+ -" + after == "2d6 + -1d4 - 1";
  }

  /** The first `-` becomes `+ -`; the second stays inside the last piece. */
  lemma ItemsSecondMinus(dice: string)
    requires dice == "2d6 - 1d4 - 1"
    ensures Items(dice) == ["2d6", "-1d4 - 1"]
  {
    NormalizeSecondMinus(dice);
    assert Normalize(dice) == "2d6" + (" " + "+" + " ") + "-1d4 - 1";
    SplitPair("2d6", " ", " ", "-1d4 - 1");
  }

  /** The piece left with a second `-` in it does not match: after `d4` the pattern wants the end. */
  lemma MatchSecondMinus(p: string)
    requires p == "-1d4 - 1"
    ensures MatchTerm(p) == None
  {
    var body := "1d4 - 1";
    assert p == "-" + body;
    LexUnpadded(p);
    LexCoreMinus(body);
    SecondMinusBody(body);
  }

  lemma SecondMinusBody(body: string)
    requires body == "1d4 - 1"
    ensures LexBody(true, body) == None
  {
    var faces := "4 - 1";
    assert body == "1" + "d" + faces;
    assert faces[1] == ' ';
    LexBodyBadFaces(true, "1", faces);
  }

  /** Only the first `-` is rewritten: `2d6 - 1d4 - 1` is an error. */
  lemma SecondMinus(dice: string, rand: nat -> real)
    requires dice == "2d6 - 1d4 - 1"
    ensures Evaluate(dice, rand) == None
  {
    ItemsSecondMinus(dice);
    MatchSecondMinus(Items(dice)[1]);
    BadPieceFails(dice, rand, 1);
  }

  lemma NormalizeSecondD(dice: string)
    requires dice == "1D6+1D4"
    ensures Normalize(dice) == "1d6+1D4"
  {
    assert dice == "1" + "D" + "6+1D4";
    NormalizeDAt("1", "6+1D4");
    assert "1" + "d" + "6+1D4" == "1d6+1D4";
  }

  /** The first `D` is lowered; the second stays in the last piece. */
  lemma ItemsSecondD(dice: string)
    requires dice == "1D6+1D4"
    ensures Items(dice) == ["1d6", "1D4"]
  {
    NormalizeSecondD(dice);
    assert Normalize(dice) == "1d6" + ("" + "+" + "") + "1D4";
    SplitPair("1d6", "", "", "1D4");
  }

  lemma MatchSecondD(p: string)
    requires p == "1D4"
    ensures MatchTerm(p) == None
  {
    var count, tail := "1", "D4";
    assert p == count + tail;
    LexUnpadded(p);
    assert LexCore(p) == LexBody(false, p);
    LexBodyBadTail(false, count, tail);
  }

  /** Only the first `D` is lowered: `1D6+1D4` is an error. */
  lemma SecondD(dice: string, rand: nat -> real)
    requires dice == "1D6+1D4"
    ensures Evaluate(dice, rand) == None
  {
    ItemsSecondD(dice);
    MatchSecondD(Items(dice)[1]);
    BadPieceFails(dice, rand, 1);
  }

  /**
   * In a formula with a single `D`, that `D` reads as `d`: the formula
   * evaluates exactly as its lower-case spelling (`1D6` as `1d6`, `2D6 - 1d4`
   * as `2d6 - 1d4`).
   */
  lemma UpperCaseD(before: string, after: string, rand: nat -> real)
    requires 'D' !in before && 'D' !in after
    ensures Evaluate(before + "D" + after, rand) == Evaluate(before + "d" + after, rand)
  {
    NormalizeFirstD(before, after);
    var t := before + "d" + after;
    assert 'D' !in t;
    ReplaceMinusKeepsD(t);
    ReplaceDAbsent(ReplaceFirstMinus(t));
  }

  /** Zero dice give no entries, and a formula with no entries is an error. */
  lemma ZeroDice(dice: string, rand: nat -> real)
    requires dice == "0d6"
    ensures Evaluate(dice, rand) == None
  {
    assert '-' !in dice && 'D' !in dice && '+' !in dice;
    NormalizePlain(dice);
    SplitNone(dice);
    assert DigitsValue("0") == 0 && DigitsValue("6") == 6;
    MatchGroup(dice, false, "0", "6", 0, 6);
    ParseOne(dice, DieGroup(1, 0, 6));
    ExpandOne(DieGroup(1, 0, 6), rand);
  }

  /** A die with no faces always shows 0, and its size is recorded as 0, like a constant. */
  lemma NoFaces(dice: string, rand: nat -> real)
    requires dice == "1d0"
    ensures Evaluate(dice, rand) == Some(Outcome([0], [0]))
  {
    assert '-' !in dice && 'D' !in dice && '+' !in dice;
    NormalizePlain(dice);
    SplitNone(dice);
    assert DigitsValue("1") == 1 && DigitsValue("0") == 0;
    MatchGroup(dice, false, "1", "0", 1, 0);
    ParseOne(dice, DieGroup(1, 1, 0));
    ExpandOne(DieGroup(1, 1, 0), rand);
    assert Draw(0, rand(0)) == 0;
    assert Rolls(1, 0, 1, rand, 0) == [0];
    EvaluateOf(dice, [DieGroup(1, 1, 0)], rand, [0], [0], 1);
  }

  /** A `d` without a die size does not match: `2d` is an error. */
  lemma MissingSize(dice: string, rand: nat -> real)
    requires dice == "2d"
    ensures Evaluate(dice, rand) == None
  {
    assert '-' !in dice && 'D' !in dice && '+' !in dice;
    NormalizePlain(dice);
    SplitNone(dice);
    LexUnpadded(dice);
    assert dice == "2" + "d" + "";
    LexBodyBadFaces(false, "2", "");
    BadPieceFails(dice, rand, 0);
  }

  /** Letters other than one `d` do not match: `abc` is an error. */
  lemma NotAFormula(dice: string, rand: nat -> real)
    requires dice == "abc"
    ensures Evaluate(dice, rand) == None
  {
    assert '-' !in dice && 'D' !in dice && '+' !in dice;
    NormalizePlain(dice);
    SplitNone(dice);
    LexUnpadded(dice);
    LexBodyBadStart(false, dice);
    BadPieceFails(dice, rand, 0);
  }
}
