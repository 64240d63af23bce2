/**
 Problem generation: random operands with a given number of decimal digits.

 The random number generator is not modelled. A call `random.randint(lo, hi)`
 becomes `RandInt(lo, hi, draw)`, where `draw` is an arbitrary natural number
 supplied by the caller; `RandIntCovers` shows that every value of the range
 is obtained for some draw, so the model restricts nothing but the range.
 */
module Generator {

  /** One multiplication exercise `a × b`. */
  datatype Problem = Problem(a: int, b: int)

  /** 10 raised to the power n. */
  function Pow10(n: nat): (r: nat)
    ensures r >= 1
  {
    if n == 0 then 1 else 10 * Pow10(n - 1)
  }

  /** The number of decimal digits of n, written without leading zeros (0 has one digit). */
  function NumDigits(n: nat): (r: nat)
    ensures r >= 1
    ensures r == 1 <==> n < 10
  {
    if n < 10 then 1 else 1 + NumDigits(n / 10)
  }

  /** Reference definition of an operand for a digit count: a positive number with exactly that many digits. */
  predicate HasDigits(digits: int, n: int)
  {
    n >= 1 && NumDigits(n) == digits
  }

  /** `random.randint(lo, hi)`: the inclusive range, with the choice made by `draw`. */
  function RandInt(lo: int, hi: int, draw: nat): (r: int)
    requires lo <= hi
    ensures lo <= r <= hi
  {
    lo + draw % (hi - lo + 1)
  }

  /** The draw `v - lo` selects `v`. */
  lemma RandIntAt(lo: int, hi: int, v: int)
    requires lo <= v <= hi
    ensures RandInt(lo, hi, v - lo) == v
  {
    assert (v - lo) % (hi - lo + 1) == v - lo;
  }

  /** Every value of the range is the outcome of some draw. */
  lemma RandIntCovers(lo: int, hi: int, v: int)
    requires lo <= v <= hi
    ensures exists draw: nat :: RandInt(lo, hi, draw) == v
  {
    RandIntAt(lo, hi, v);
  }

  /** Numbers with `d` digits are exactly those in [10^(d-1), 10^d - 1]. */
  lemma {:induction false} DigitsRange(d: nat, n: nat)
    requires d >= 1 && n >= 1
    ensures NumDigits(n) == d <==> Pow10(d - 1) <= n < Pow10(d)
  {
    if d == 1 {
      assert Pow10(1) == 10;
    } else if n < 10 {
      assert Pow10(d - 1) >= 10 by { Pow10Grows(d - 1); }
    } else {
      var q := n / 10;
      assert n == 10 * q + n % 10;
      DigitsRange(d - 1, q);
      assert Pow10(d - 1) == 10 * Pow10(d - 2);
    }
  }

  /** 10^k is at least 10 for k >= 1. */
  lemma {:induction false} Pow10Grows(k: nat)
    requires k >= 1
    ensures Pow10(k) >= 10
  {
    if k > 1 {
      Pow10Grows(k - 1);
    }
  }

  /**
   `generate_number(digits)`: one digit gives a value in [1, 9] (zero is
   excluded), more digits give a value in [10^(digits-1), 10^digits - 1].
   */
  function GenerateNumber(digits: int, draw: nat): (n: int)
    requires digits >= 1
    ensures digits == 1 ==> 1 <= n <= 9
    ensures digits >= 2 ==> Pow10(digits - 1) <= n <= Pow10(digits) - 1
    ensures HasDigits(digits, n)
  {
    var n := if digits == 1 then RandInt(1, 9, draw)
             else RandInt(Pow10(digits - 1), Pow10(digits) - 1, draw);
    DigitsRange(digits, n);
    n
  }

  /** A draw that makes `GenerateNumber(digits, _)` produce the given operand. */
  function DrawFor(digits: int, n: int): (draw: nat)
    requires digits >= 1 && HasDigits(digits, n)
    ensures GenerateNumber(digits, draw) == n
  {
    DigitsRange(digits, n);
    if digits == 1 then
      assert Pow10(1) == 10;
      RandIntAt(1, 9, n);
      n - 1
    else
      RandIntAt(Pow10(digits - 1), Pow10(digits) - 1, n);
      n - Pow10(digits - 1)
  }

  /** The operands `GenerateNumber` can produce are exactly the positive numbers with `digits` digits. */
  lemma GenerateNumberCovers(digits: int, n: int)
    requires digits >= 1
    ensures HasDigits(digits, n) <==> exists draw: nat :: GenerateNumber(digits, draw) == n
  {
    if HasDigits(digits, n) {
      assert GenerateNumber(digits, DrawFor(digits, n)) == n;
    }
  }

  /**
   `generate_problems(first, second, count)`: `count` problems built in order,
   problem i taking its operands from draws 2i and 2i+1.
   */
  function GenerateProblems(first: int, second: int, count: nat, draws: seq<nat>): (ps: seq<Problem>)
    requires first >= 1 && second >= 1
    requires |draws| >= 2 * count
    ensures |ps| == count
    ensures forall i :: 0 <= i < count ==>
      ps[i] == Problem(GenerateNumber(first, draws[2 * i]), GenerateNumber(second, draws[2 * i + 1]))
    ensures forall i :: 0 <= i < count ==> HasDigits(first, ps[i].a) && HasDigits(second, ps[i].b)
  {
    if count == 0 then []
    else
      var k := count - 1;
      GenerateProblems(first, second, k, draws)
        + [Problem(GenerateNumber(first, draws[2 * k]), GenerateNumber(second, draws[2 * k + 1]))]
  }

  /** Draws that reproduce a given batch of problems, two per problem. */
  function DrawsFor(first: int, second: int, ps: seq<Problem>): (draws: seq<nat>)
    requires first >= 1 && second >= 1
    requires forall i :: 0 <= i < |ps| ==> HasDigits(first, ps[i].a) && HasDigits(second, ps[i].b)
    ensures |draws| == 2 * |ps|
    ensures forall i :: 0 <= i < |ps| ==>
      GenerateNumber(first, draws[2 * i]) == ps[i].a && GenerateNumber(second, draws[2 * i + 1]) == ps[i].b
  {
    if |ps| == 0 then []
    else
      var init := ps[..|ps| - 1];
      var last := ps[|ps| - 1];
      var front := DrawsFor(first, second, init);
      var draws := front + [DrawFor(first, last.a), DrawFor(second, last.b)];
      assert forall i :: 0 <= i < |init| ==> draws[2 * i] == front[2 * i] && draws[2 * i + 1] == front[2 * i + 1];
      draws
  }

  /** Every batch of well-formed problems is the outcome of some sequence of draws. */
  lemma GenerateProblemsCovers(first: int, second: int, ps: seq<Problem>)
    requires first >= 1 && second >= 1
    requires forall i :: 0 <= i < |ps| ==> HasDigits(first, ps[i].a) && HasDigits(second, ps[i].b)
    ensures exists draws: seq<nat> :: |draws| == 2 * |ps| && GenerateProblems(first, second, |ps|, draws) == ps
  {
    var draws := DrawsFor(first, second, ps);
    var gs := GenerateProblems(first, second, |ps|, draws);
    assert forall i :: 0 <= i < |ps| ==> gs[i] == ps[i];
    assert gs == ps;
  }
}
