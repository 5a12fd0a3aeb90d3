/** Cell values of a frame and the element-wise operators pandas applies to
    them: comparisons against a scalar, `==`, arithmetic and truthiness. */
module Values {
  import opened Outcomes

  /** A calendar date as produced by `pd.to_datetime(...).dt.date`. */
  datatype Date = Date(year: int, month: int, day: int)

  /** One cell. `Null` is pandas' NaN / NaT (a missing value); numbers are
      exact reals rather than floats. */
  datatype Value = Null | Num(x: real) | Str(s: string) | Day(d: Date)

  /** Outcome of comparing two cells: `Unordered` when one of them is missing,
      because every ordered comparison with NaN or NaT is False. */
  datatype Order = Less | Same | Greater | Unordered

  function CompareReals(a: real, b: real): Order {
    if a < b then Less else if a == b then Same else Greater
  }

  function CompareInts(a: int, b: int): Order {
    if a < b then Less else if a == b then Same else Greater
  }

  /** Dates compare by year, then month, then day. */
  function CompareDates(a: Date, b: Date): Order {
    if a.year != b.year then CompareInts(a.year, b.year)
    else if a.month != b.month then CompareInts(a.month, b.month)
    else CompareInts(a.day, b.day)
  }

  /** Python's string order: lexicographic by code point, a proper prefix first. */
  function CompareStrings(a: string, b: string): Order {
    if |a| == 0 then (if |b| == 0 then Same else Less)
    else if |b| == 0 then Greater
    else if a[0] < b[0] then Less
    else if b[0] < a[0] then Greater
    else CompareStrings(a[1..], b[1..])
  }

  /** `None` when Python would raise a TypeError (say, a string against a number). */
  function Compare(a: Value, b: Value): Option<Order> {
    match (a, b)
    case (Null, _) => Some(Unordered)
    case (_, Null) => Some(Unordered)
    case (Num(x), Num(y)) => Some(CompareReals(x, y))
    case (Str(x), Str(y)) => Some(CompareStrings(x, y))
    case (Day(x), Day(y)) => Some(CompareDates(x, y))
    case _ => None
  }

  /** The comparison operators the scripts use in boolean masks. */
  datatype Op = AtLeast | AtMost | Above | EqualTo

  /** `a <op> b` for one cell. `==` never raises and is False on NaN. */
  function Test(a: Value, op: Op, b: Value): Option<bool> {
    if op == EqualTo then Some(a == b && !a.Null?)
    else
      match Compare(a, b)
      case None => None
      case Some(o) =>
        Some(match op
             case AtLeast => o == Greater || o == Same
             case AtMost => o == Less || o == Same
             case Above => o == Greater
             case EqualTo => false)
  }

  /** `a / b`. A missing operand, or a zero divisor, gives a missing value
      (pandas gives NaN for 0/0 and an infinity otherwise). */
  function Divide(a: Value, b: Value): Result<Value> {
    match (a, b)
    case (Num(x), Num(y)) => Ok(if y == 0.0 then Null else Num(x / y))
    case (Null, Num(_)) => Ok(Null)
    case (Num(_), Null) => Ok(Null)
    case (Null, Null) => Ok(Null)
    case _ => Err(TypeMismatch)
  }

  /** `a - b` on two aggregate cells; NaN propagates. */
  function Subtract(a: Value, b: Value): Value {
    if a.Num? && b.Num? then Num(a.x - b.x) else Null
  }

  /** Python truthiness, as `if venue_choice:` uses it. */
  predicate Truthy(v: Value) {
    match v
    case Null => true
    case Num(x) => x != 0.0
    case Str(s) => s != ""
    case Day(_) => true
  }

  /** The kind of a present cell; two present cells compare iff their kinds agree. */
  function Kind(v: Value): nat {
    match v
    case Null => 0
    case Num(_) => 1
    case Str(_) => 2
    case Day(_) => 3
  }

  lemma {:induction false} CompareStringsFlip(a: string, b: string)
    ensures CompareStrings(a, b) == Less <==> CompareStrings(b, a) == Greater
    ensures CompareStrings(a, b) == Same <==> a == b
    ensures CompareStrings(a, b) != Unordered
    decreases |a|
  {
    if |a| > 0 && |b| > 0 && a[0] == b[0] {
      CompareStringsFlip(a[1..], b[1..]);
      if a[1..] == b[1..] {
        assert a == [a[0]] + a[1..] && b == [b[0]] + b[1..];
      }
    }
  }

  lemma {:induction false} CompareStringsTransitive(a: string, b: string, c: string)
    requires CompareStrings(a, b) in {Greater, Same}
    requires CompareStrings(b, c) in {Greater, Same}
    ensures CompareStrings(a, c) in {Greater, Same}
    decreases |a|
  {
    CompareStringsFlip(a, b);
    CompareStringsFlip(b, c);
    CompareStringsFlip(a, c);
    if |a| > 0 && |b| > 0 && |c| > 0 && a[0] == b[0] == c[0] {
      CompareStringsTransitive(a[1..], b[1..], c[1..]);
    }
  }

  /** Two present cells of the same kind are ordered one way or the other or equal. */
  lemma CompareSameKind(a: Value, b: Value)
    requires !a.Null? && !b.Null? && Kind(a) == Kind(b)
    ensures Compare(a, b).Some? && Compare(a, b).value != Unordered
    ensures Compare(a, b).value == Less <==> Compare(b, a).value == Greater
    ensures Compare(a, b).value == Same <==> a == b
  {
    if a.Str? {
      CompareStringsFlip(a.s, b.s);
    }
  }

  lemma CompareTransitive(a: Value, b: Value, c: Value)
    requires Compare(a, b).Some? && Compare(a, b).value in {Greater, Same}
    requires Compare(b, c).Some? && Compare(b, c).value in {Greater, Same}
    ensures Compare(a, c).Some? && Compare(a, c).value in {Greater, Same}
  {
    if a.Str? {
      CompareStringsTransitive(a.s, b.s, c.s);
    }
  }
}
