/**
 Unsigned 64-bit arithmetic as src/qhw_math.c and the saturating helpers beside it do it.
 Dafny integers are unbounded, so every width limit is written out here.
 */
module CheckedMath {

  const U64_MAX: int := 0xFFFF_FFFF_FFFF_FFFF

  type u64 = x: int | 0 <= x <= 0xFFFF_FFFF_FFFF_FFFF
  type u32 = x: int | 0 <= x <= 0xFFFF_FFFF

  /** The error codes of the public interface; success is not among them. */
  datatype Error = Inval | NoMem | NotFound | State | Policy | Estimator | Unsupported | Exists

  datatype Option<+T> = None | Some(value: T)

  /** Return code of an operation that yields nothing else. */
  datatype Status = OK | Err(error: Error)

  datatype Result<+T> = Success(value: T) | Failure(error: Error) {
    predicate IsFailure() {
      Failure?
    }

    function PropagateFailure<U>(): Result<U>
      requires Failure?
    {
      Failure(error)
    }

    function Extract(): T
      requires Success?
    {
      value
    }

    function Status(): Status {
      if Success? then OK else Err(error)
    }
  }

  function Min(a: int, b: int): int {
    if a <= b then a else b
  }

  /** Checked addition: fails exactly when the sum does not fit. */
  function Add(a: u64, b: u64): (r: Result<u64>)
    ensures r.Success? <==> a + b <= U64_MAX
    ensures r.Success? ==> r.value == a + b
    ensures r.Failure? ==> r.error == Inval
  {
    if U64_MAX - a < b then Failure(Inval) else Success(a + b)
  }

  /** Checked multiplication: the division guard is exact. */
  function Mul(a: u64, b: u64): (r: Result<u64>)
    ensures r.Success? <==> a * b <= U64_MAX
    ensures r.Success? ==> r.value == a * b
    ensures r.Failure? ==> r.error == Inval
  {
    MulGuardExact(a, b);
    if a != 0 && b > U64_MAX / a then Failure(Inval) else Success(a * b)
  }

  /** Ceiling division: only a zero divisor fails, and the quotient is the least one that covers a. */
  function CeilDiv(a: u64, b: u64): (r: Result<u64>)
    ensures r.Failure? <==> b == 0
    ensures r.Failure? ==> r.error == Inval
    ensures r.Success? ==> a <= r.value * b
    ensures r.Success? && r.value != 0 ==> (r.value - 1) * b < a
  {
    var invalid: Result<u64> := Failure(Inval);
    if b == 0 then
      invalid
    else
      DivisionFacts(a, b);
      var quotient := a / b;
      if a % b != 0 then
        if quotient == U64_MAX then invalid else Success(quotient + 1)
      else
        Success(quotient)
  }

  function SatAdd(a: u64, b: u64): (r: u64)
    ensures r == Min(a + b, U64_MAX)
  {
    if U64_MAX - a < b then U64_MAX else a + b
  }

  function SatSub(a: u64, b: u64): u64 {
    if a < b then 0 else a - b
  }

  /** The C increment operator on an unsigned 64-bit counter. */
  function Increment(a: u64): u64 {
    if a == U64_MAX then 0 else a + 1
  }

  /** The value a saturating accumulation of a nonnegative sum ends at. */
  function Clip(n: nat): u64 {
    if n <= U64_MAX then n else U64_MAX
  }

  lemma MulGuardExact(a: nat, b: nat)
    ensures a != 0 ==> (b > U64_MAX / a <==> a * b > U64_MAX)
    ensures a == 0 ==> a * b == 0
    ensures 0 <= a * b
  {
    if a != 0 {
      DivisionFacts(U64_MAX, a);
      var q := U64_MAX / a;
      if b > q {
        MulMonotone(a, q + 1, b);
      } else {
        MulMonotone(a, b, q);
      }
    }
  }

  lemma DivisionFacts(a: nat, b: nat)
    requires b != 0
    ensures a == (a / b) * b + a % b
    ensures 0 <= a % b < b
    ensures 0 <= a / b <= a
    ensures b >= 2 && a > 0 ==> a / b < a
  {
    var q := a / b;
    assert a == q * b + a % b;
    if b >= 2 && a > 0 && q >= a {
      MulMonotone(a, 2, b);
      MulMonotone(b, a, q);
      assert false;
    }
  }

  lemma MulMonotone(a: nat, b: nat, c: nat)
    requires b <= c
    ensures a * b <= a * c
    ensures b * a <= c * a
  {
  }

  /** A factor of at least one does not shrink a product. */
  lemma MulGrows(a: nat, b: nat)
    requires b >= 1
    ensures a <= a * b
    ensures a <= b * a
  {
    MulMonotone(a, 1, b);
  }
}
