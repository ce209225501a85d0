/** The validated arithmetic helpers `multiply`, `divide` and `average`.

    Python arguments are dynamically typed; an argument is either a number
    (an int or a float, both modelled as an exact `real`) or some other
    value. A `raise` becomes an `Err` carrying the exception class and its
    message. */
module Pydoctor {
  import opened Wrappers

  /** A dynamically typed argument as the `isinstance(x, (int, float))`
      check sees it. A value of another type may still compare equal to 0
      (`Decimal(0) == 0` holds in Python); `zeroLike` records that. */
  datatype Val = Num(x: real) | NonNum(zeroLike: bool)

  /** Python's `v == 0`. */
  predicate EqualsZero(v: Val) {
    match v
    case Num(x) => x == 0.0
    case NonNum(zeroLike) => zeroLike
  }

  /** The two Python exception classes the helpers raise. */
  datatype PyError =
    | ValueError(message: string)
    | ZeroDivisionError(message: string)

  const OperandTypeMessage: string := "Both a and b must be ints or floats"
  const ZeroDivisorMessage: string := "Cannot divide by zero"
  const ElementTypeMessage: string := "All elements must be int or float"
  const EmptyListMessage: string := "List cannot be empty"

  /** `multiply(a, b)`: type check both operands, then multiply. */
  function Multiply(a: Val, b: Val): (r: Result<real, PyError>)
    ensures r.Ok? <==> a.Num? && b.Num?
    ensures r.Err? ==> r.error == ValueError(OperandTypeMessage)
    ensures r.Ok? ==> r.value == a.x * b.x
  {
    if a.NonNum? || b.NonNum? then Err(ValueError(OperandTypeMessage))
    else Ok(a.x * b.x)
  }

  /** `divide(a, b)`: the zero test on the divisor comes before the type
      test, so a zero divisor is reported as such whatever the dividend. */
  function Divide(a: Val, b: Val): (r: Result<real, PyError>)
    ensures EqualsZero(b) ==> r == Err(ZeroDivisionError(ZeroDivisorMessage))
    ensures !EqualsZero(b) && (a.NonNum? || b.NonNum?) ==> r == Err(ValueError(OperandTypeMessage))
    ensures r.Ok? <==> a.Num? && b.Num? && b.x != 0.0
    // the quotient is the number that multiplied by the divisor gives the dividend
    ensures r.Ok? ==> r.value * b.x == a.x
  {
    if EqualsZero(b) then Err(ZeroDivisionError(ZeroDivisorMessage))
    else if a.NonNum? || b.NonNum? then Err(ValueError(OperandTypeMessage))
    else Ok(a.x / b.x)
  }

  /** Every element passes the type check. */
  predicate AllNumeric(xs: seq<Val>) {
    forall k :: 0 <= k < |xs| ==> xs[k].Num?
  }

  /** The `for num in numbers` scan: true when the scan reaches its end
      without raising. */
  function ScanNumeric(xs: seq<Val>): (ok: bool)
    ensures ok <==> AllNumeric(xs)
  {
    if |xs| == 0 then true
    else if xs[0].NonNum? then false
    else
      var rest := ScanNumeric(xs[1..]);
      assert forall k :: 1 <= k < |xs| ==> xs[k] == xs[1..][k - 1];
      rest
  }

  /** The numbers of an all-numeric list, in order. */
  function Values(xs: seq<Val>): (vs: seq<real>)
    requires AllNumeric(xs)
    ensures |vs| == |xs|
    ensures forall k :: 0 <= k < |xs| ==> vs[k] == xs[k].x
  {
    seq(|xs|, k requires 0 <= k < |xs| => xs[k].x)
  }

  /** Python's `sum`, adding left to right from 0. */
  function Sum(vs: seq<real>): real {
    if |vs| == 0 then 0.0 else Sum(vs[..|vs| - 1]) + vs[|vs| - 1]
  }

  /** `average(numbers)`: the element scan runs before the emptiness test;
      a non-empty all-numeric list yields `sum / len`. */
  function Average(xs: seq<Val>): (r: Result<real, PyError>)
    ensures (exists k :: 0 <= k < |xs| && xs[k].NonNum?) ==> r == Err(ValueError(ElementTypeMessage))
    ensures |xs| == 0 ==> r == Err(ValueError(EmptyListMessage))
    ensures r.Ok? <==> |xs| > 0 && AllNumeric(xs)
    ensures r.Ok? ==> r.value * (|xs| as real) == Sum(Values(xs))
  {
    if !ScanNumeric(xs) then Err(ValueError(ElementTypeMessage))
    else if |xs| == 0 then Err(ValueError(EmptyListMessage))
    else Ok(Sum(Values(xs)) / (|xs| as real))
  }

  /** Multiplication does not depend on the order of its operands, errors
      included. */
  lemma MultiplyCommutes(a: Val, b: Val)
    ensures Multiply(a, b) == Multiply(b, a)
  {
  }

  /** Dividing a product by a non-zero factor recovers the other factor. */
  lemma DivideUndoesMultiply(a: real, b: real)
    requires b != 0.0
    ensures Multiply(Num(a), Num(b)).Ok?
    ensures Divide(Num(Multiply(Num(a), Num(b)).value), Num(b)) == Ok(a)
  {
    var d := Divide(Num(a * b), Num(b));
    assert d.Ok?;
    var e := d.value - a;
    assert e * b == 0.0;
    assert e == 0.0;
    assert d == Ok(a);
    assert Multiply(Num(a), Num(b)).value == a * b;
  }

  /** A sum of `n` numbers each between `lo` and `hi` lies between `n * lo`
      and `n * hi`. */
  lemma {:induction false} SumBounds(vs: seq<real>, lo: real, hi: real)
    requires forall k :: 0 <= k < |vs| ==> lo <= vs[k] <= hi
    ensures (|vs| as real) * lo <= Sum(vs) <= (|vs| as real) * hi
  {
    if |vs| > 0 {
      SumBounds(vs[..|vs| - 1], lo, hi);
    }
  }

  /** The average lies between any lower and any upper bound of the
      elements. */
  lemma AverageBounds(xs: seq<Val>, lo: real, hi: real)
    requires |xs| > 0
    requires forall k :: 0 <= k < |xs| ==> xs[k].Num? && lo <= xs[k].x <= hi
    ensures Average(xs).Ok?
    ensures lo <= Average(xs).value <= hi
  {
    var n := |xs| as real;
    var avg := Average(xs).value;
    SumBounds(Values(xs), lo, hi);
    assert n * lo <= avg * n <= n * hi;
  }

  /** The demonstrations in the module's `__main__` block. */
  lemma ScriptExamples()
    ensures Multiply(Num(5.0), Num(3.0)) == Ok(15.0)
    ensures Divide(Num(10.0), Num(2.0)) == Ok(5.0)
    ensures Multiply(NonNum(false), Num(7.0)) == Err(ValueError(OperandTypeMessage))
    ensures Divide(Num(5.0), Num(0.0)) == Err(ZeroDivisionError(ZeroDivisorMessage))
    ensures Average([]) == Err(ValueError(EmptyListMessage))
    ensures Average([Num(1.0), Num(2.0), Num(3.0), NonNum(false)]) == Err(ValueError(ElementTypeMessage))
  {
    assert [Num(1.0), Num(2.0), Num(3.0), NonNum(false)][3].NonNum?;
  }

  /** `average([1, 2, 3, 4])` is 2.5. */
  lemma AverageExample()
    ensures Average([Num(1.0), Num(2.0), Num(3.0), Num(4.0)]) == Ok(2.5)
  {
    var xs := [Num(1.0), Num(2.0), Num(3.0), Num(4.0)];
    var vs := Values(xs);
    assert vs == [1.0, 2.0, 3.0, 4.0];
    assert vs[..3] == [1.0, 2.0, 3.0];
    assert vs[..3][..2] == [1.0, 2.0];
    assert vs[..3][..2][..1] == [1.0];
    assert [1.0][..0] == [];
    assert Sum([1.0]) == 1.0;
    assert Sum([1.0, 2.0]) == 3.0;
    assert Sum([1.0, 2.0, 3.0]) == 6.0;
    assert Sum(vs) == 10.0;
  }
}
