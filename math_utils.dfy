/**
 * The drill-problem generator: random integers in a range, d-digit numbers,
 * digit specifications such as "3" or "3-2", and one add/less, multiply or
 * divide problem built from a practice configuration.
 *
 * Math.random() is an explicit input: each draw is a fraction num / den in
 * [0, 1), so Math.floor(Math.random() * n) is exactly num * n / den.
 */
module MathUtils {
  import opened Wrappers
  import opened Text
  import opened Types
  import opened Arith

  /** One value returned by Math.random(): the fraction num / den. */
  datatype Fraction = Fraction(num: nat, den: nat)

  type Random = u: Fraction | u.num < u.den witness Fraction(0, 1)

  /** The draws one add/less row consumes: the digit-spec pick, the number, the sign. */
  datatype RowDraw = RowDraw(digits: Random, value: Random, sign: Random)

  /** Math.floor(u * n): an index below n. */
  function Scale(u: Random, n: nat): (k: nat)
    ensures n > 0 ==> k < n
  {
    if n > 0 then
      MulLt(u.num, u.den, n);
      assert u.num * n < n * u.den;
      DivBelow(u.num * n, u.den, n);
      u.num * n / u.den
    else
      0
  }

  /** randomInt(min, max) draws an integer of the closed range [min, max]. */
  function RandomInt(min: int, max: int, u: Random): (r: int)
    requires min <= max
    ensures min <= r <= max
  {
    Scale(u, max - min + 1) + min
  }

  /** Every integer of [min, max] is drawn by some value of Math.random(). */
  lemma RandomIntCovers(min: int, max: int, r: int)
    requires min <= r <= max
    ensures exists u: Random :: RandomInt(min, max, u) == r
  {
    var n := max - min + 1;
    var u: Random := Fraction(r - min, n);
    assert Scale(u, n) == r - min by { ExactScale(r - min, n); }
    assert RandomInt(min, max, u) == r;
  }

  lemma ExactScale(i: nat, n: nat)
    requires i < n
    ensures Scale(Fraction(i, n), n) == i
  {
    DivExact(i, n);
  }

  /** getNumberWithDigits(d): a d-digit number, that is one in [10^(d-1), 10^d - 1]. */
  function NumberWithDigits(d: nat, u: Random): (r: nat)
    requires d >= 1
    ensures Pow10(d - 1) <= r <= Pow10(d) - 1
    ensures |NatToString(r)| == d
  {
    assert Pow10(d) == 10 * Pow10(d - 1);
    var r := RandomInt(Pow10(d - 1), Pow10(d) - 1, u);
    NatToStringLength(r, d);
    r
  }

  /** A dash-separated part of a digit spec that denotes a digit count of at least 1. */
  predicate IsDigitCount(part: string)
  {
    AllDigits(part) && DigitsValue(part) >= 1
  }

  /** Every dash-separated part of the spec is a digit count, as the settings screen offers. */
  predicate ValidDigitSpec(spec: string)
  {
    var parts := Split(spec, '-');
    forall i :: 0 <= i < |parts| ==> IsDigitCount(parts[i])
  }

  /** A configuration whose digit settings all denote at least one digit. */
  predicate ValidConfig(c: PracticeConfig)
  {
    && ValidDigitSpec(c.digits)
    && c.multiplicandDigits >= 1 && c.multiplicatorDigits >= 1
    && c.dividendDigits >= 1 && c.divisorDigits >= 1
  }

  /**
   * getDigitsFromConfig: a spec without '-' is read as one number; a spec with
   * '-' yields the part the draw picks. None stands for NaN.
   */
  function DigitsFromConfig(spec: string, u: Random): (r: Option<nat>)
    ensures '-' !in spec ==> r == ToNumber(spec)
    ensures '-' in spec ==>
      exists i :: 0 <= i < |Split(spec, '-')| && r == ToNumber(Split(spec, '-')[i])
    ensures ValidDigitSpec(spec) ==> r.Some? && r.value >= 1
  {
    var parts := Split(spec, '-');
    if '-' in spec then
      ToNumber(parts[Scale(u, |parts|)])
    else
      assert parts[0] == spec;
      ToNumber(spec)
  }

  /** Each dash-separated part of a spec is picked by some draw. */
  lemma DigitsFromConfigCovers(spec: string, i: nat)
    requires '-' in spec && i < |Split(spec, '-')|
    ensures exists u: Random :: DigitsFromConfig(spec, u) == ToNumber(Split(spec, '-')[i])
  {
    var u: Random := Fraction(i, |Split(spec, '-')|);
    ExactScale(i, |Split(spec, '-')|);
    assert DigitsFromConfig(spec, u) == ToNumber(Split(spec, '-')[i]);
  }

  /**
   * An example instance of DigitsFromConfig's contract: the spec "3-2"
   * yields three digits or two, whichever part the draw picks.
   */
  lemma ThreeOrTwoDigits(u: Random)
    ensures DigitsFromConfig("3-2", u) in {Some(3), Some(2)}
  {
    assert Split("3-2", '-') == ["3", "2"] by {
      assert "3-2"[1..] == "-2" && "-2"[1..] == "2" && "2"[1..] == "";
      assert Split("", '-') == [""];
      assert Split("2", '-') == ["2"];
      assert Split("-2", '-') == ["", "2"];
      assert "3-2"[0] == '3' && "3-2"[0] != '-' && ['3'] + "" == "3";
    }
    assert DigitsValue("3") == 3 && DigitsValue("2") == 2;
  }

  /** Math.random() > 0.6: the 40% chance that a later row is subtracted. */
  predicate IsSubtraction(u: Random): (r: bool)
    ensures r <==> (u.num as real) / (u.den as real) > 0.6
  {
    RatioAbove(u.num, u.den);
    5 * u.num > 3 * u.den
  }

  /** The value of row i of an add/less problem, drawn from one RowDraw. */
  function RowValue(c: PracticeConfig, draw: RowDraw, i: nat): (r: int)
    requires ValidDigitSpec(c.digits)
    ensures var d := DigitsFromConfig(c.digits, draw.digits).value;
      Pow10(d - 1) <= (if r < 0 then -r else r) < Pow10(d)
    ensures (i == 0 || c.sumsType == Addition) ==> r > 0
    ensures r < 0 <==> c.sumsType == AddAndLess && i > 0 && IsSubtraction(draw.sign)
  {
    var d := DigitsFromConfig(c.digits, draw.digits).value;
    var num: int := NumberWithDigits(d, draw.value);
    if c.sumsType == AddAndLess && i > 0 && IsSubtraction(draw.sign) then -num else num
  }

  /** The running total the add/less loop accumulates, left to right. */
  function Sum(s: seq<int>): int
  {
    if s == [] then 0 else Sum(s[..|s| - 1]) + s[|s| - 1]
  }

  /** A sum of positive entries is at least the number of entries. */
  lemma {:induction false} SumOfPositives(s: seq<int>)
    requires forall i :: 0 <= i < |s| ==> s[i] > 0
    ensures Sum(s) >= |s|
  {
    if s != [] {
      SumOfPositives(s[..|s| - 1]);
    }
  }

  /** Each number rendered by toString(), as Array.prototype.join renders its entries. */
  function Lines(ns: seq<int>): seq<string>
  {
    seq(|ns|, i requires 0 <= i < |ns| => IntToString(ns[i]))
  }

  /** The multiply branch: a multiplicand and a multiplicator with the configured digit counts. */
  function MultiplyProblem(c: PracticeConfig, id: string, first: Random, second: Random): (p: DrillProblem)
    requires c.multiplicandDigits >= 1 && c.multiplicatorDigits >= 1
    ensures p.id == id && |p.numbers| == 2
    ensures Pow10(c.multiplicandDigits - 1) <= p.numbers[0] < Pow10(c.multiplicandDigits)
    ensures Pow10(c.multiplicatorDigits - 1) <= p.numbers[1] < Pow10(c.multiplicatorDigits)
    ensures p.answer == p.numbers[0] * p.numbers[1]
    ensures p.displayString == IntToString(p.numbers[0]) + " \U{0E23}\U{0097} " + IntToString(p.numbers[1])
  {
    var num1 := NumberWithDigits(c.multiplicandDigits, first);
    var num2 := NumberWithDigits(c.multiplicatorDigits, second);
    DrillProblem(id, [num1, num2], num1 * num2, IntToString(num1) + " \U{0E23}\U{0097} " + IntToString(num2))
  }

  /** dividend - (dividend % divisor): the largest multiple of the divisor not above the dividend. */
  function CleanDividend(dividend: nat, divisor: nat): (r: nat)
    requires divisor > 0
    ensures r % divisor == 0 && r <= dividend && dividend - divisor < r
  {
    RoundDown(dividend, divisor);
    dividend - dividend % divisor
  }

  /** The candidate dividend: a random number with the configured dividend digit count. */
  function CandidateDividend(c: PracticeConfig, u: Random): (r: nat)
    requires c.dividendDigits >= 1
    ensures Pow10(c.dividendDigits - 1) <= r < Pow10(c.dividendDigits)
  {
    assert Pow10(c.dividendDigits) == 10 * Pow10(c.dividendDigits - 1);
    RandomInt(Pow10(c.dividendDigits - 1), Pow10(c.dividendDigits) - 1, u)
  }

  /**
   * The dividend actually used: the cleaned candidate, or divisor * k for a k
   * drawn from 1..9 when cleaning gave 0.
   */
  function FinalDividend(dividend: nat, divisor: nat, third: Random): (r: nat)
    requires divisor > 0
    ensures r > 0 && r % divisor == 0
    ensures CleanDividend(dividend, divisor) != 0 ==> r == CleanDividend(dividend, divisor)
    ensures CleanDividend(dividend, divisor) == 0 ==> 1 <= r / divisor <= 9
  {
    var cleanDividend := CleanDividend(dividend, divisor);
    if cleanDividend == 0 then
      var k := RandomInt(1, 9, third);
      ExactQuotient(k, divisor);
      MulLe(1, k, divisor);
      divisor * k
    else
      cleanDividend
  }

  /**
   * The divide branch: numbers are [dividend, divisor], the dividend an exact
   * multiple of the divisor, the answer their exact quotient.
   */
  function DivideProblem(c: PracticeConfig, id: string, first: Random, second: Random, third: Random): (p: DrillProblem)
    requires c.divisorDigits >= 1 && c.dividendDigits >= 1
    ensures p.id == id && |p.numbers| == 2
    ensures Pow10(c.divisorDigits - 1) <= p.numbers[1] < Pow10(c.divisorDigits)
    ensures p.numbers[0] > 0 && p.numbers[0] % p.numbers[1] == 0
    ensures p.answer * p.numbers[1] == p.numbers[0]
    ensures var dividend := CandidateDividend(c, second);
      if CleanDividend(dividend, p.numbers[1]) != 0 then
        p.numbers[0] < Pow10(c.dividendDigits) && dividend - p.numbers[1] < p.numbers[0] <= dividend
      else
        1 <= p.answer <= 9
    ensures p.displayString == IntToString(p.numbers[0]) + " \U{0E23}\U{0E17} " + IntToString(p.numbers[1])
  {
    var divisor := NumberWithDigits(c.divisorDigits, first);
    var finalDividend := FinalDividend(CandidateDividend(c, second), divisor, third);
    var answer := finalDividend / divisor;
    ExactWhenDivisible(finalDividend, divisor);
    DrillProblem(id, [finalDividend, divisor], answer,
                 IntToString(finalDividend) + " \U{0E23}\U{0E17} " + IntToString(divisor))
  }

  lemma ExactWhenDivisible(x: nat, d: nat)
    requires d > 0 && x % d == 0
    ensures (x / d) * d == x
  {
    assert x == (x / d) * d + x % d;
  }

  lemma ExactQuotient(k: nat, d: nat)
    requires d > 0
    ensures (d * k) / d == k && (d * k) % d == 0
  {
    assert d * k == k * d;
    DivExact(k, d);
  }

  /**
   * The dividend keeps its digit count only on a best-effort basis: with two
   * dividend digits, a drawn divisor of 7 and a drawn candidate of 10 the
   * dividend becomes 7, a one-digit number.
   */
  lemma DividendMayLoseDigit(c: PracticeConfig, id: string, third: Random)
    requires c.dividendDigits == 2 && c.divisorDigits == 1
    ensures var p := DivideProblem(c, id, Fraction(6, 9), Fraction(0, 90), third);
      p.numbers == [7, 7] && p.numbers[0] < Pow10(c.dividendDigits - 1)
  {
    ExactScale(6, 9);
    ExactScale(0, 90);
    assert NumberWithDigits(1, Fraction(6, 9)) == 7;
    assert CandidateDividend(c, Fraction(0, 90)) == 10;
  }

  /** Each of the numbers is the row value of the draw at its index. */
  predicate RowsMatch(c: PracticeConfig, draws: seq<RowDraw>, numbers: seq<int>)
    requires ValidDigitSpec(c.digits) && |numbers| <= |draws|
  {
    forall k :: 0 <= k < |numbers| ==> numbers[k] == RowValue(c, draws[k], k)
  }

  lemma RowsMatchExtend(c: PracticeConfig, draws: seq<RowDraw>, numbers: seq<int>, num: int)
    requires ValidDigitSpec(c.digits) && |numbers| < |draws|
    requires RowsMatch(c, draws, numbers) && num == RowValue(c, draws[|numbers|], |numbers|)
    ensures RowsMatch(c, draws, numbers + [num])
  {
    var extended := numbers + [num];
    forall k | 0 <= k < |extended|
      ensures extended[k] == RowValue(c, draws[k], k)
    {
      if k < |numbers| {
        assert extended[k] == numbers[k];
      }
    }
  }

  /**
   * Nothing keeps an Add Less total non-negative: with a spec that resolves to
   * one digit (such as "1", see OneDigitSpec) and three rows that all draw 9
   * and a sign above 0.6, the later two are subtracted and the rows add up to -9.
   */
  lemma AddLessTotalMayBeNegative(c: PracticeConfig, draw: RowDraw, numbers: seq<int>)
    requires ValidDigitSpec(c.digits) && DigitsFromConfig(c.digits, Fraction(0, 1)) == Some(1)
    requires c.sumsType == AddAndLess
    requires draw == RowDraw(Fraction(0, 1), Fraction(8, 9), Fraction(4, 5))
    requires |numbers| == 3 && RowsMatch(c, [draw, draw, draw], numbers)
    ensures numbers == [9, -9, -9] && Sum(numbers) == -9
  {
    WitnessRow(c, draw, 0);
    WitnessRow(c, draw, 1);
    WitnessRow(c, draw, 2);
    assert numbers[0] == 9 && numbers[1] == -9 && numbers[2] == -9;
    var two := numbers[..2];
    var one := two[..1];
    assert one[..0] == [] && one[0] == 9;
    assert Sum(one) == 9;
    assert two[..1] == one && two[1] == -9;
  }

  /** The witness draw gives 9 on the first row and -9 on every later row. */
  lemma WitnessRow(c: PracticeConfig, draw: RowDraw, i: nat)
    requires ValidDigitSpec(c.digits) && DigitsFromConfig(c.digits, Fraction(0, 1)) == Some(1)
    requires c.sumsType == AddAndLess
    requires draw == RowDraw(Fraction(0, 1), Fraction(8, 9), Fraction(4, 5))
    ensures RowValue(c, draw, i) == if i == 0 then 9 else -9
  {
    ExactScale(8, 9);
    assert IsSubtraction(Fraction(4, 5));
  }

  /** The spec "1" is valid, and every draw resolves it to one digit. */
  lemma OneDigitSpec(c: PracticeConfig, u: Random)
    requires c.digits == "1"
    ensures ValidDigitSpec(c.digits) && DigitsFromConfig(c.digits, u) == Some(1)
  {
    assert Split("1", '-') == ["1"];
    assert DigitsValue("1") == 1;
  }

  /**
   * The add/less branch of generateProblem: one row pushed per iteration,
   * with the running sum kept alongside.
   */
  method AddLessProblem(config: PracticeConfig, id: string, rowDraws: seq<RowDraw>) returns (p: DrillProblem)
    requires ValidDigitSpec(config.digits)
    requires |rowDraws| == config.rows
    ensures p.id == id && |p.numbers| == config.rows
    ensures RowsMatch(config, rowDraws, p.numbers)
    ensures p.answer == Sum(p.numbers)
    ensures p.displayString == Join(Lines(p.numbers), '\n')
  {
    var numbers: seq<int> := [];
    var rowCount := config.rows;
    var currentSum := 0;
    for i := 0 to rowCount
      invariant |numbers| == i
      invariant RowsMatch(config, rowDraws, numbers)
      invariant currentSum == Sum(numbers)
    {
      var digits := DigitsFromConfig(config.digits, rowDraws[i].digits).value;
      var num: int := NumberWithDigits(digits, rowDraws[i].value);
      if config.sumsType == AddAndLess && i > 0 {
        var isSubtraction := IsSubtraction(rowDraws[i].sign);
        if isSubtraction {
          num := -num;
        }
      }
      assert num == RowValue(config, rowDraws[i], i);
      RowsMatchExtend(config, rowDraws, numbers, num);
      assert (numbers + [num])[..i] == numbers;
      numbers := numbers + [num];
      currentSum := currentSum + num;
    }
    p := DrillProblem(id, numbers, currentSum, Join(Lines(numbers), '\n'));
  }

  /** generateProblem: one drill problem for the configuration's operation. */
  method GenerateProblem(config: PracticeConfig, id: string, rowDraws: seq<RowDraw>,
                         first: Random, second: Random, third: Random)
    returns (p: DrillProblem)
    requires ValidConfig(config)
    requires config.operation == AddLess ==> |rowDraws| == config.rows
    ensures p.id == id
    ensures config.operation == AddLess ==>
      && |p.numbers| == config.rows
      && (forall i :: 0 <= i < |p.numbers| ==> p.numbers[i] == RowValue(config, rowDraws[i], i))
      && p.answer == Sum(p.numbers)
      && p.displayString == Join(Lines(p.numbers), '\n')
    ensures config.operation == AddLess && config.sumsType == Addition ==>
      (forall i :: 0 <= i < |p.numbers| ==> p.numbers[i] > 0) && p.answer >= config.rows
    ensures config.operation == Multiply ==> p == MultiplyProblem(config, id, first, second)
    ensures config.operation == Divide ==> p == DivideProblem(config, id, first, second, third)
  {
    match config.operation {
      case AddLess =>
        p := AddLessProblem(config, id, rowDraws);
        if config.sumsType == Addition {
          assert forall i :: 0 <= i < |p.numbers| ==> p.numbers[i] > 0;
          SumOfPositives(p.numbers);
        }
      case Multiply =>
        p := MultiplyProblem(config, id, first, second);
      case Divide =>
        p := DivideProblem(config, id, first, second, third);
    }
  }
}
