/** The arithmetic of run-time values (src/objects/constant.rs): checked 64-bit
    integer add, sub, mul, div and modlo, register offsets on addresses, and the
    floating-point arms through an opaque floating-point unit. */
module ConstantOps {
  import opened Types

  /** The f64 operations the source uses, on IEEE-754 bit patterns: arithmetic,
      the `as f64` conversion and the comparisons `==`, `<` and `<=` (`a > b` is
      `b < a`). The model never computes with floating point: each is a parameter. */
  datatype FloatUnit = FloatUnit(
    add: (u64, u64) -> u64, sub: (u64, u64) -> u64, mul: (u64, u64) -> u64,
    div: (u64, u64) -> u64, rem: (u64, u64) -> u64,
    ofInt: i64 -> u64,
    eq: (u64, u64) -> bool, lt: (u64, u64) -> bool, le: (u64, u64) -> bool)

  /** `x == 0.0` on a bit pattern: true for +0.0 and -0.0. */
  predicate IsZeroBits(b: u64) {
    b == 0 || b == 0x8000_0000_0000_0000
  }

  type Outcome = Result<Constant, ErrorKind>

  // ---------------------------------------------------------------------------
  // Integer helpers.

  /** i64::checked_*: the exact result when it fits in an i64. */
  function Checked(x: int): (r: Option<i64>)
    ensures r.Some? <==> I64_MIN <= x <= I64_MAX
    ensures r.Some? ==> r.value == x
  {
    if I64_MIN <= x <= I64_MAX then Some(x) else None
  }

  /** check_overflow (constant.rs:23-34). */
  function CheckOverflow(v: Option<i64>): (r: Result<i64, ErrorKind>)
    ensures r.Err? <==> v.None?
    ensures r.Err? ==> r.error == Overflow
    ensures r.Ok? ==> r.value == v.value
  {
    if v.None? then Err(Overflow) else Ok(v.value)
  }

  /** Rust's `/` on integers: the quotient rounded toward zero. */
  function TruncDiv(a: int, b: int): int
    requires b != 0
  {
    var q := Abs(a) / Abs(b);
    if (a < 0) != (b < 0) then -q else q
  }

  /** Rust's `%` on integers: the remainder of the quotient rounded toward zero. */
  function TruncRem(a: int, b: int): int
    requires b != 0
  {
    a - b * TruncDiv(a, b)
  }

  function Abs(x: int): nat {
    if x < 0 then -x else x
  }

  /** `v as u32` on an i64: the low 32 bits. */
  function AsU32(v: i64): (r: u32)
    ensures (r - v) % U32_LIMIT == 0
  {
    v % U32_LIMIT
  }

  /** The index arithmetic of `Register(r.0 + v as u32, r.1)`, wrapping at 2^32. */
  function Shift(r: Register, v: i64, up: bool): (s: Register)
    ensures s.loc == r.loc
  {
    var k := AsU32(v);
    Register(if up then (r.index + k) % U32_LIMIT else (r.index - k) % U32_LIMIT, r.loc)
  }

  // ---------------------------------------------------------------------------
  // The operations, arm by arm as in the source's matches.

  /** Constant::add (constant.rs:49-76). */
  function Add(fu: FloatUnit, x: Constant, y: Constant): (r: Outcome)
    ensures r.Err? ==> r.error in {Overflow, InvalidOperation}
  {
    match (x, y)
    case (Int(a), Int(b)) =>
      var v :- CheckOverflow(Checked(a + b));
      Ok(Int(v))
    case (Double(a), Double(b)) => Ok(Double(fu.add(a, b)))
    case (Int(a), Double(b)) => Ok(Double(fu.add(fu.ofInt(a), b)))
    case (Double(b), Int(a)) => Ok(Double(fu.add(fu.ofInt(a), b)))
    case (Address(reg), Int(v)) => Ok(Address(Shift(reg, v, true)))
    case (Int(v), Address(reg)) => Ok(Address(Shift(reg, v, true)))
    case _ => Err(InvalidOperation)
  }

  /** Constant::sub (constant.rs:91-118). The mixed arms bind the integer to the
      left operand of `-` in both orders, as the source's or-pattern does. */
  function Sub(fu: FloatUnit, x: Constant, y: Constant): (r: Outcome)
    ensures r.Err? ==> r.error in {Overflow, InvalidOperation}
  {
    match (x, y)
    case (Int(a), Int(b)) =>
      var v :- CheckOverflow(Checked(a - b));
      Ok(Int(v))
    case (Double(a), Double(b)) => Ok(Double(fu.sub(a, b)))
    case (Int(a), Double(b)) => Ok(Double(fu.sub(fu.ofInt(a), b)))
    case (Double(b), Int(a)) => Ok(Double(fu.sub(fu.ofInt(a), b)))
    case (Address(reg), Int(v)) => Ok(Address(Shift(reg, v, false)))
    case (Int(v), Address(reg)) => Ok(Address(Shift(reg, v, false)))
    case _ => Err(InvalidOperation)
  }

  /** Constant::mul (constant.rs:134-158): no address arm. */
  function Mul(fu: FloatUnit, x: Constant, y: Constant): (r: Outcome)
    ensures r.Err? ==> r.error in {Overflow, InvalidOperation}
  {
    match (x, y)
    case (Int(a), Int(b)) =>
      var v :- CheckOverflow(Checked(a * b));
      Ok(Int(v))
    case (Double(a), Double(b)) => Ok(Double(fu.mul(a, b)))
    case (Int(a), Double(b)) => Ok(Double(fu.mul(fu.ofInt(a), b)))
    case (Double(b), Int(a)) => Ok(Double(fu.mul(fu.ofInt(a), b)))
    case _ => Err(InvalidOperation)
  }

  /** Constant::div (constant.rs:174-213). */
  function Div(fu: FloatUnit, x: Constant, y: Constant): (r: Outcome)
    ensures r.Err? ==> r.error in {Overflow, InvalidOperation}
  {
    match (x, y)
    case (Int(a), Int(b)) =>
      if b == 0 then Err(InvalidOperation)
      else
        var v :- CheckOverflow(Checked(TruncDiv(a, b)));
        Ok(Int(v))
    case (Double(a), Double(b)) =>
      if IsZeroBits(b) then Err(InvalidOperation) else Ok(Double(fu.div(a, b)))
    case (Int(a), Double(b)) =>
      if IsZeroBits(b) then Err(InvalidOperation) else Ok(Double(fu.div(fu.ofInt(a), b)))
    case (Double(b), Int(a)) =>
      if IsZeroBits(b) then Err(InvalidOperation) else Ok(Double(fu.div(fu.ofInt(a), b)))
    case _ => Err(InvalidOperation)
  }

  /** i64::MIN % -1 overflows, and Rust's `%` panics on it. */
  predicate RemPanics(x: Constant, y: Constant) {
    x == Int(I64_MIN) && y == Int(-1)
  }

  /** Constant::modlo (constant.rs:229-261). */
  function Modlo(fu: FloatUnit, x: Constant, y: Constant): (r: Outcome)
    requires !RemPanics(x, y)
    ensures r.Err? ==> r.error == InvalidOperation
  {
    match (x, y)
    case (Int(a), Int(b)) =>
      if b == 0 then Err(InvalidOperation) else Ok(Int(TruncRem(a, b)))
    case (Double(a), Double(b)) =>
      if IsZeroBits(b) then Err(InvalidOperation) else Ok(Double(fu.rem(a, b)))
    case (Int(a), Double(b)) =>
      if IsZeroBits(b) then Err(InvalidOperation) else Ok(Double(fu.rem(fu.ofInt(a), b)))
    case (Double(b), Int(a)) =>
      if IsZeroBits(b) then Err(InvalidOperation) else Ok(Double(fu.rem(fu.ofInt(a), b)))
    case _ => Err(InvalidOperation)
  }

  // ---------------------------------------------------------------------------
  // Properties.

  /** Int + Int is the sum exactly when it fits in an i64, and an overflow error otherwise. */
  lemma AddInt(fu: FloatUnit, a: i64, b: i64)
    ensures I64_MIN <= a + b <= I64_MAX ==> Add(fu, Int(a), Int(b)) == Ok(Int(a + b))
    ensures !(I64_MIN <= a + b <= I64_MAX) ==> Add(fu, Int(a), Int(b)) == Err(Overflow)
  {
  }

  lemma SubInt(fu: FloatUnit, a: i64, b: i64)
    ensures I64_MIN <= a - b <= I64_MAX ==> Sub(fu, Int(a), Int(b)) == Ok(Int(a - b))
    ensures !(I64_MIN <= a - b <= I64_MAX) ==> Sub(fu, Int(a), Int(b)) == Err(Overflow)
  {
  }

  lemma MulInt(fu: FloatUnit, a: i64, b: i64)
    ensures I64_MIN <= a * b <= I64_MAX ==> Mul(fu, Int(a), Int(b)) == Ok(Int(a * b))
    ensures !(I64_MIN <= a * b <= I64_MAX) ==> Mul(fu, Int(a), Int(b)) == Err(Overflow)
  {
  }

  /** b * q for a signed b, through the magnitude of b. */
  lemma SignedProduct(b: int, q: int)
    ensures b * q == (if b < 0 then -(Abs(b) * q) else Abs(b) * q)
    ensures b * -q == -(b * q)
  {
  }

  /** The quotient rounded toward zero: b * q + r == a with |r| < |b| and r zero or of a's sign. */
  lemma TruncDivRem(a: int, b: int)
    requires b != 0
    ensures b * TruncDiv(a, b) + TruncRem(a, b) == a
    ensures Abs(TruncRem(a, b)) < Abs(b)
    ensures TruncRem(a, b) == 0 || (TruncRem(a, b) < 0 <==> a < 0)
  {
    var q := Abs(a) / Abs(b);
    var m := Abs(a) % Abs(b);
    var p := Abs(b) * q;
    assert Abs(a) == p + m;
    SignedProduct(b, q);
    if (a < 0) != (b < 0) {
      assert b * TruncDiv(a, b) == b * -q;
    } else {
      assert b * TruncDiv(a, b) == b * q;
    }
  }

  /** Dividing by at least 2 at least halves. */
  lemma QuotientHalf(x: nat, y: nat)
    requires y >= 2
    ensures 2 * (x / y) <= x
  {
    var q := x / y;
    assert x == y * q + x % y;
    assert y * q >= 2 * q;
  }

  /** Outside i64::MIN / -1 the truncated quotient of two i64 is an i64. */
  lemma DivFits(a: i64, b: i64)
    requires b != 0 && !(a == I64_MIN && b == -1)
    ensures I64_MIN <= TruncDiv(a, b) <= I64_MAX
  {
    var x: nat := Abs(a);
    var y: nat := Abs(b);
    assert x <= -I64_MIN;
    if y == 1 {
      assert x / y == x;
    } else {
      QuotientHalf(x, y);
    }
  }

  /** Int / Int: a zero divisor is an invalid operation, i64::MIN / -1 overflows, and
      otherwise the quotient rounded toward zero. */
  lemma DivInt(fu: FloatUnit, a: i64, b: i64)
    ensures b == 0 ==> Div(fu, Int(a), Int(b)) == Err(InvalidOperation)
    ensures a == I64_MIN && b == -1 ==> Div(fu, Int(a), Int(b)) == Err(Overflow)
    ensures b != 0 && !(a == I64_MIN && b == -1) ==>
              Div(fu, Int(a), Int(b)) == Ok(Int(TruncDiv(a, b)))
  {
    if b != 0 && !(a == I64_MIN && b == -1) {
      DivFits(a, b);
    }
    if a == I64_MIN && b == -1 {
      assert TruncDiv(a, b) == -I64_MIN;
    }
  }

  /** modlo on Int: a zero divisor is an invalid operation; otherwise div and modlo give q
      and r with a == b * q + r, |r| < |b| and r zero or of a's sign. */
  lemma DivModlo(fu: FloatUnit, a: i64, b: i64)
    requires !(a == I64_MIN && b == -1)
    ensures b == 0 ==> Modlo(fu, Int(a), Int(b)) == Err(InvalidOperation)
    ensures b != 0 ==> Div(fu, Int(a), Int(b)).Ok? && Modlo(fu, Int(a), Int(b)).Ok?
    ensures b != 0 ==>
              var q := Div(fu, Int(a), Int(b)).value;
              var r := Modlo(fu, Int(a), Int(b)).value;
              q.Int? && r.Int? && a == b * q.i + r.i && Abs(r.i) < Abs(b) &&
              (r.i == 0 || (r.i < 0 <==> a < 0))
  {
    if b != 0 {
      DivInt(fu, a, b);
      TruncDivRem(a, b);
    }
  }

  /** The documented examples: 5 + 5 = 10, 5 - 5 = 0, 5 * 5 = 25, 5 / 5 = 1, and
      5 modlo 5 = 0 (the documentation of modlo shows 1). */
  lemma DocumentedExamples(fu: FloatUnit)
    ensures Add(fu, Int(5), Int(5)) == Ok(Int(10))
    ensures Sub(fu, Int(5), Int(5)) == Ok(Int(0))
    ensures Mul(fu, Int(5), Int(5)) == Ok(Int(25))
    ensures Div(fu, Int(5), Int(5)) == Ok(Int(1))
    ensures Modlo(fu, Int(5), Int(5)) == Ok(Int(0))
  {
    assert TruncDiv(5, 5) == 1;
  }

  /** Address ± Int keeps the location and moves the index by the integer's low
      32 bits, modulo 2^32, with the integer on either side. */
  lemma AddressOffset(fu: FloatUnit, reg: Register, v: i64)
    ensures Add(fu, Address(reg), Int(v)) == Add(fu, Int(v), Address(reg))
    ensures Sub(fu, Address(reg), Int(v)) == Sub(fu, Int(v), Address(reg))
    ensures Add(fu, Address(reg), Int(v)).Ok? && Sub(fu, Address(reg), Int(v)).Ok?
    ensures var s := Add(fu, Address(reg), Int(v)).value;
            s.Address? && s.reg.loc == reg.loc && (s.reg.index - reg.index - v) % U32_LIMIT == 0
    ensures var s := Sub(fu, Address(reg), Int(v)).value;
            s.Address? && s.reg.loc == reg.loc && (s.reg.index - reg.index + v) % U32_LIMIT == 0
  {
    var k := AsU32(v);
    ModShift(reg.index + k, reg.index, v, k);
    ModShift(reg.index - k, reg.index, -(v as int), -(k as int));
  }

  /** A value taken modulo 2^32 differs from base + w by a multiple of 2^32 when
      base + t does and t - w is one. */
  lemma ModShift(x: int, base: int, w: int, t: int)
    requires x == base + t && (t - w) % U32_LIMIT == 0
    ensures (x % U32_LIMIT - base - w) % U32_LIMIT == 0
  {
    var m := U32_LIMIT;
    var j := (t - w) / m;
    assert t - w == j * m;
    var i := x / m;
    assert x == i * m + x % m;
    assert x % m - base - w == (j - i) * m;
  }

  /** Subtracting an integer from an address undoes adding it. */
  lemma AddressAddSub(fu: FloatUnit, reg: Register, v: i64)
    ensures Add(fu, Address(reg), Int(v)).Ok?
    ensures Sub(fu, Add(fu, Address(reg), Int(v)).value, Int(v)) == Ok(Address(reg))
  {
    var k := AsU32(v);
    var up := (reg.index + k) % U32_LIMIT;
    var back := (up - k) % U32_LIMIT;
    var m := U32_LIMIT;
    var i := (reg.index + k) / m;
    assert reg.index + k == i * m + up;
    assert up - k == reg.index - i * m;
    ModMultiple(reg.index, i);
  }

  lemma ModMultiple(x: nat, i: int)
    requires x < U32_LIMIT
    ensures (x - i * U32_LIMIT) % U32_LIMIT == x
  {
  }

  /** Add commutes except on two Doubles, where the sum is the floating-point unit's. */
  lemma AddCommutes(fu: FloatUnit, x: Constant, y: Constant)
    requires !(x.Double? && y.Double?)
    ensures Add(fu, x, y) == Add(fu, y, x)
  {
  }

  /** Only Int and Double mix with each other, and an address only with an Int in add and sub:
      every other pair is an invalid operation. */
  lemma NonNumericRejected(fu: FloatUnit, x: Constant, y: Constant)
    requires !IsNumeric(x) && !x.Address?
    ensures Add(fu, x, y) == Err(InvalidOperation) && Add(fu, y, x) == Err(InvalidOperation)
    ensures Sub(fu, x, y) == Err(InvalidOperation) && Sub(fu, y, x) == Err(InvalidOperation)
    ensures Mul(fu, x, y) == Err(InvalidOperation) && Mul(fu, y, x) == Err(InvalidOperation)
    ensures Div(fu, x, y) == Err(InvalidOperation) && Div(fu, y, x) == Err(InvalidOperation)
    ensures Modlo(fu, x, y) == Err(InvalidOperation) && Modlo(fu, y, x) == Err(InvalidOperation)
  {
  }

  /** Addresses do not multiply, divide or take remainders, and two addresses do not add. */
  lemma AddressArithmeticRejected(fu: FloatUnit, reg: Register, y: Constant)
    ensures Mul(fu, Address(reg), y) == Err(InvalidOperation)
    ensures Div(fu, Address(reg), y) == Err(InvalidOperation)
    ensures Modlo(fu, Address(reg), y) == Err(InvalidOperation)
    ensures y.Address? ==> Add(fu, Address(reg), y) == Err(InvalidOperation)
    ensures y.Address? ==> Sub(fu, Address(reg), y) == Err(InvalidOperation)
  {
  }
}
