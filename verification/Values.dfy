/**
 ClassAd values and the operator semantics of `Operation::_doOperation`.

 The scalar part of the value domain is modelled: UNDEFINED, ERROR, booleans,
 64-bit integers and strings.  Integer results are reduced to the range of a
 `long long` with two's-complement wrap-around.
 */
module Values {

  datatype Option<+T> = None | Some(value: T)

  datatype Value =
    | Undefined
    | Error
    | Bool(b: bool)
    | Int(i: int)
    | Str(s: string)

  datatype BinOp =
    | Lt | Le | Ne | Eq | Ge | Gt | Is | Isnt
    | Add | Sub | Mul | Div | Mod
    | Or | And
    | BitOr | BitXor | BitAnd | Shl | Shr | UShr

  datatype UnOp = UPlus | UMinus | Not | BitNot

  predicate IsComparison(op: BinOp) {
    op.Lt? || op.Le? || op.Ne? || op.Eq? || op.Ge? || op.Gt? || op.Is? || op.Isnt?
  }

  predicate IsArithmetic(op: BinOp) {
    op.Add? || op.Sub? || op.Mul? || op.Div? || op.Mod?
  }

  predicate IsLogical(op: BinOp) {
    op == Or || op == And
  }

  predicate IsBitwise(op: BinOp) {
    op.BitOr? || op.BitXor? || op.BitAnd? || op.Shl? || op.Shr? || op.UShr?
  }

  /** `IsStrictOperator`: =?=, =!=, && and || look at exceptional operands themselves. */
  predicate IsStrict(op: BinOp) {
    !op.Is? && !op.Isnt? && !op.And? && !op.Or?
  }

  /** The operators that `_Flatten` treats as associative and commutative. */
  predicate IsCommutative(op: BinOp) {
    op.Add? || op.Mul? || op.Or? || op.And? || op.BitOr? || op.BitXor? || op.BitAnd?
  }

  // ---------- 64-bit integers ----------

  const TWO63: int := 0x8000_0000_0000_0000
  const TWO64: int := 0x1_0000_0000_0000_0000

  function Wrap(x: int): int {
    (x + TWO63) % TWO64 - TWO63
  }

  lemma WrapShift(x: int, k: int)
    ensures Wrap(x + k * TWO64) == Wrap(x)
  {
    var y := x + TWO63;
    assert (y + k * TWO64) / TWO64 == y / TWO64 + k by {
      assert y == (y / TWO64) * TWO64 + y % TWO64;
      assert y + k * TWO64 == (y / TWO64 + k) * TWO64 + y % TWO64;
    }
  }

  lemma WrapIsShift(x: int) returns (k: int)
    ensures Wrap(x) == x + k * TWO64
  {
    k := -((x + TWO63) / TWO64);
  }

  lemma WrapAdd(a: int, b: int)
    ensures Wrap(Wrap(a) + b) == Wrap(a + b) == Wrap(b + Wrap(a))
  {
    var k := WrapIsShift(a);
    WrapShift(a + b, k);
  }

  lemma WrapMul(a: int, b: int)
    ensures Wrap(Wrap(a) * b) == Wrap(a * b) == Wrap(b * Wrap(a))
  {
    var k := WrapIsShift(a);
    assert Wrap(a) * b == a * b + (k * b) * TWO64;
    WrapShift(a * b, k * b);
  }

  lemma WrapAddAssociates(a: int, b: int, c: int)
    ensures Wrap(Wrap(a + b) + c) == Wrap(a + Wrap(b + c))
  {
    WrapAdd(a + b, c);
    WrapAdd(b + c, a);
  }

  lemma WrapMulAssociates(a: int, b: int, c: int)
    ensures Wrap(Wrap(a * b) * c) == Wrap(a * Wrap(b * c))
  {
    WrapMul(a * b, c);
    WrapMul(b * c, a);
    assert (a * b) * c == (b * c) * a;
  }

  /** C's integer division truncates toward zero. */
  function TruncDiv(a: int, b: int): int
    requires b != 0
  {
    if (a >= 0) == (b > 0) then Magnitude(a) / Magnitude(b) else -(Magnitude(a) / Magnitude(b))
  }

  function TruncMod(a: int, b: int): int
    requires b != 0
  {
    if a >= 0 then Magnitude(a) % Magnitude(b) else -(Magnitude(a) % Magnitude(b))
  }

  function Magnitude(a: int): nat {
    if a >= 0 then a else -a
  }

  // ---------- bits of two's-complement integers ----------

  function BitFn(op: BinOp, x: int, y: int): int {
    if op == BitOr then (if x == 1 || y == 1 then 1 else 0)
    else if op == BitAnd then (if x == 1 && y == 1 then 1 else 0)
    else (if x != y then 1 else 0)
  }

  function Width(a: int): nat {
    if a >= 0 then a else -a - 1
  }

  /** The bitwise operators, bit by bit; 0 and -1 are the two sign extensions. */
  function Bits(op: BinOp, a: int, b: int): int
    decreases Width(a) + Width(b)
  {
    if Width(a) == 0 && Width(b) == 0 then
      -BitFn(op, -a, -b)
    else
      2 * Bits(op, a / 2, b / 2) + BitFn(op, a % 2, b % 2)
  }

  lemma BitsUnfold(op: BinOp, a: int, b: int)
    ensures Bits(op, a, b) / 2 == Bits(op, a / 2, b / 2)
    ensures Bits(op, a, b) % 2 == BitFn(op, a % 2, b % 2)
  {
  }

  lemma {:induction false} BitsCommute(op: BinOp, a: int, b: int)
    ensures Bits(op, a, b) == Bits(op, b, a)
    decreases Width(a) + Width(b)
  {
    if Width(a) != 0 || Width(b) != 0 {
      BitsCommute(op, a / 2, b / 2);
    }
  }

  lemma BitFnAssociates(op: BinOp, x: int, y: int, z: int)
    requires op.BitOr? || op.BitXor? || op.BitAnd?
    requires 0 <= x <= 1 && 0 <= y <= 1 && 0 <= z <= 1
    ensures BitFn(op, BitFn(op, x, y), z) == BitFn(op, x, BitFn(op, y, z))
  {
  }

  lemma SameHalves(l: int, r: int)
    requires l / 2 == r / 2 && l % 2 == r % 2
    ensures l == r
  {
  }

  lemma {:induction false} BitsAssociate(op: BinOp, a: int, b: int, c: int)
    requires op.BitOr? || op.BitXor? || op.BitAnd?
    ensures Bits(op, Bits(op, a, b), c) == Bits(op, a, Bits(op, b, c))
    decreases Width(a) + Width(b) + Width(c)
  {
    if Width(a) != 0 || Width(b) != 0 || Width(c) != 0 {
      BitsAssociate(op, a / 2, b / 2, c / 2);
      BitsAssociateStep(op, a, b, c);
    }
  }

  lemma BitsAssociateStep(op: BinOp, a: int, b: int, c: int)
    requires op.BitOr? || op.BitXor? || op.BitAnd?
    requires Bits(op, Bits(op, a / 2, b / 2), c / 2) == Bits(op, a / 2, Bits(op, b / 2, c / 2))
    ensures Bits(op, Bits(op, a, b), c) == Bits(op, a, Bits(op, b, c))
  {
    hide Bits;
    hide BitFn;
    BitsUnfold(op, a, b);
    BitsUnfold(op, b, c);
    BitsUnfold(op, Bits(op, a, b), c);
    BitsUnfold(op, a, Bits(op, b, c));
    BitFnAssociates(op, a % 2, b % 2, c % 2);
    SameHalves(Bits(op, Bits(op, a, b), c), Bits(op, a, Bits(op, b, c)));
  }

  function Pow2(n: nat): int
    ensures Pow2(n) > 0
  {
    if n == 0 then 1 else 2 * Pow2(n - 1)
  }

  /** A shift count outside 0..63, undefined in the source, is taken modulo 64 as hardware does. */
  function Count(n: int): nat {
    n % 64
  }

  function ShiftRight(a: int, n: int): int {
    if a >= 0 then a / Pow2(Count(n))
    else if n <= 0 then a
    else a / Pow2(n)
  }

  function UnsignedShiftRight(a: int, n: int): int {
    if a >= 0 then a / Pow2(Count(n))
    else ((a / 2) % TWO63) / Pow2(Count(n - 1))
  }

  /**
   `>>` on a negative integer shifts one bit at a time and sets the sign bit
   after each step; that is division rounding toward minus infinity.
   */
  method ShiftRightNegative(a: int, n: int) returns (r: int)
    requires a < 0
    ensures r == ShiftRight(a, n)
    ensures r < 0
  {
    r := a;
    var i := 0;
    while i < n
      invariant 0 <= i
      invariant i <= n || i == 0
      invariant r == a / Pow2(i)
      invariant r < 0
    {
      HalfOfQuotient(a, Pow2(i));
      r := r / 2;
      i := i + 1;
    }
  }

  lemma HalfOfQuotient(a: int, p: int)
    requires p > 0
    ensures (a / p) / 2 == a / (2 * p)
  {
    var q, m := a / p, a % p;
    var h, b := q / 2, q % 2;
    assert a == q * p + m && q == 2 * h + b;
    assert a == h * (2 * p) + (b * p + m);
    var t := b * p + m;
    assert 0 <= t < 2 * p;
    DivUnique(a, 2 * p, h, t);
  }

  lemma DivUnique(a: int, d: int, q: int, m: int)
    requires d > 0 && 0 <= m < d && a == q * d + m
    ensures a / d == q
  {
    var e := a / d - q;
    assert a == (a / d) * d + a % d;
    assert e * d == m - a % d;
    MultipleBounds(e, d);
  }

  lemma MultipleBounds(e: int, d: int)
    requires d > 0
    ensures e >= 1 ==> e * d >= d
    ensures e <= -1 ==> e * d <= -d
  {
  }

  // ---------- strings ----------

  function LowerChar(c: char): char {
    if 'A' <= c <= 'Z' then c - 'A' + 'a' else c
  }

  function Lower(s: string): string {
    if s == "" then "" else [LowerChar(s[0])] + Lower(s[1..])
  }

  /** -1, 0 or 1, as the sign of `strcmp`. */
  function CompareStrings(a: string, b: string): int {
    if a == "" && b == "" then 0
    else if a == "" then -1
    else if b == "" then 1
    else if a[0] < b[0] then -1
    else if a[0] > b[0] then 1
    else CompareStrings(a[1..], b[1..])
  }

  // ---------- the operators ----------

  function Ordering(op: BinOp, c: int): Value {
    match op
    case Lt => Bool(c < 0)
    case Le => Bool(c <= 0)
    case Ne => Bool(c != 0)
    case Eq => Bool(c == 0)
    case Ge => Bool(c >= 0)
    case _ => Bool(c > 0)
  }

  function NumberOf(v: Value): int
    requires v.Bool? || v.Int?
  {
    if v.Bool? then (if v.b then 1 else 0) else v.i
  }

  /** `doComparison`; booleans are promoted to integers before the types are compared. */
  function Compare(op: BinOp, v1: Value, v2: Value): Value {
    if op == Is || op == Isnt then
      var same :=
        if (v1.Bool? || v1.Int?) && (v2.Bool? || v2.Int?) then NumberOf(v1) == NumberOf(v2)
        else v1 == v2;
      Bool(same == (op == Is))
    else if v1.Str? && v2.Str? then
      Ordering(op, CompareStrings(Lower(v1.s), Lower(v2.s)))
    else if (v1.Bool? || v1.Int?) && (v2.Bool? || v2.Int?) then
      Ordering(op, NumberOf(v1) - NumberOf(v2))
    else
      Error
  }

  /** `doArithmetic` on operands that are neither UNDEFINED nor ERROR. */
  function Arithmetic(op: BinOp, v1: Value, v2: Value): Value {
    if !((v1.Bool? || v1.Int?) && (v2.Bool? || v2.Int?)) then Error
    else
      var a, b := NumberOf(v1), NumberOf(v2);
      match op
      case Add => Int(Wrap(a + b))
      case Sub => Int(Wrap(a - b))
      case Mul => Int(Wrap(a * b))
      case Div => if b == 0 then Error else Int(Wrap(TruncDiv(a, b)))
      case _ => if b == 0 then Error else Int(TruncMod(a, b))
  }

  /** `doLogical`; a non-boolean operand is an error wherever it stands. */
  function Logical(op: BinOp, v1: Value, v2: Value): Value {
    if v1.Int? || v1.Str? || v2.Int? || v2.Str? then Error
    else if v1.Bool? && v1.b == (op == Or) then v1
    else if v1.Error? then Error
    else if v1.Bool? then v2
    else if !v2.Bool? then v2
    else if v2.b == (op == Or) then v2
    else Undefined
  }

  /** `doBitwise` on operands that are neither UNDEFINED nor ERROR. */
  function Bitwise(op: BinOp, v1: Value, v2: Value): Value {
    if !v1.Int? || !v2.Int? then Error
    else match op
      case Shl => Int(Wrap(v1.i * Pow2(Count(v2.i))))
      case Shr => Int(ShiftRight(v1.i, v2.i))
      case UShr => Int(UnsignedShiftRight(v1.i, v2.i))
      case _ => Int(Bits(op, v1.i, v2.i))
  }

  /** `_doOperation` on a binary operator. */
  function DoOperation(op: BinOp, v1: Value, v2: Value): Value {
    if IsStrict(op) && (v1.Error? || v2.Error?) then Error
    else if IsStrict(op) && (v1.Undefined? || v2.Undefined?) then Undefined
    else if IsComparison(op) then Compare(op, v1, v2)
    else if IsArithmetic(op) then Arithmetic(op, v1, v2)
    else if IsLogical(op) then Logical(op, v1, v2)
    else Bitwise(op, v1, v2)
  }

  /**
   `_doOperation` on a unary operator.  The boolean case of unary minus sets a
   result and then falls through to the error case, so `-true` is ERROR.
   */
  function DoUnary(op: UnOp, v: Value): Value {
    if v.Error? || v.Undefined? then v
    else match op
      case UPlus => if v.Int? then v else Error
      case UMinus => if v.Int? then Int(Wrap(-v.i)) else Error
      case Not => if v.Bool? then Bool(!v.b) else Error
      case BitNot => if v.Int? then Int(-v.i - 1) else Error
  }

  /** `shortCircuit`: the first operand alone settles the result. */
  predicate ShortCircuits(op: BinOp, v1: Value) {
    IsLogical(op) && v1 == Bool(op == Or)
  }

  /** The value of `a op b` when both operands have been evaluated. */
  function Combined(op: BinOp, v1: Value, v2: Value): Value {
    if ShortCircuits(op, v1) then v1 else DoOperation(op, v1, v2)
  }
}
