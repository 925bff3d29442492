/** Numbers as BigNumber and JavaScript compute with them, but for rounding: division by zero is no error. */
module Numbers {

  datatype Num = Finite(value: real) | Infinite(positive: bool) | NotANumber

  predicate Positive(a: Num) {
    match a
    case Finite(x) => x > 0.0
    case Infinite(positive) => positive
    case NotANumber => false
  }

  function Negate(a: Num): Num {
    match a
    case Finite(x) => Finite(-x)
    case Infinite(positive) => Infinite(!positive)
    case NotANumber => NotANumber
  }

  function Plus(a: Num, b: Num): Num {
    if a.Finite? && b.Finite? then Finite(a.value + b.value)
    else if a.NotANumber? || b.NotANumber? || (a.Infinite? && b == Negate(a)) then NotANumber
    else if a.Infinite? then a else b
  }

  function Minus(a: Num, b: Num): Num {
    Plus(a, Negate(b))
  }

  function Times(a: Num, b: Num): Num {
    if a.Finite? && b.Finite? then Finite(a.value * b.value)
    else if a.NotANumber? || b.NotANumber? || a == Finite(0.0) || b == Finite(0.0) then NotANumber
    else Infinite(Positive(a) == Positive(b))
  }

  function Divide(a: Num, b: Num): Num {
    if a.NotANumber? || b.NotANumber? || (a.Infinite? && b.Infinite?) then NotANumber
    else if a.Infinite? then Infinite(a.positive == (b.value >= 0.0))
    else if b.Infinite? then Finite(0.0)
    else if b.value != 0.0 then Finite(a.value / b.value)
    else if a.value == 0.0 then NotANumber
    else Infinite(a.value > 0.0)
  }

  /** No comparison with what is not a number holds. */
  predicate Less(a: Num, b: Num) {
    match a
    case Finite(x) => (b.Finite? && x < b.value) || b == Infinite(true)
    case Infinite(positive) => !positive && (b.Finite? || b == Infinite(true))
    case NotANumber => false
  }

  predicate AtMost(a: Num, b: Num) {
    a == b || Less(a, b)
  }

  /** `sort` asks for the sign of a difference, and takes what is not a number for zero. */
  predicate NotAfter(a: Num, b: Num) {
    !Positive(Minus(a, b))
  }

  /** On numbers the sign of the difference decides the order, infinities included. */
  lemma {:induction false} DifferenceOrders(a: Num, b: Num)
    requires !a.NotANumber? && !b.NotANumber?
    ensures NotAfter(a, b) <==> AtMost(a, b)
  {
  }

  lemma {:induction false} StrictIff(a: Num, b: Num)
    ensures !a.NotANumber? && !b.NotANumber? ==> (Less(a, b) <==> AtMost(a, b) && !AtMost(b, a))
    ensures !a.NotANumber? && !b.NotANumber? ==> AtMost(a, b) || AtMost(b, a)
  {
  }
}
