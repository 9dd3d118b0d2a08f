/**
 When one operator hides what another does to its operand: for which integers
 `a` and `b` is `a op (b op2 y)` the same as `a op y` for every integer `y`?
 */
module Hiding {
  import opened Values

  predicate IsIntOp(op: BinOp) {
    op.Add? || op.Mul? || op.BitOr? || op.BitXor? || op.BitAnd?
  }

  /** A strict commutative operator on integers. */
  function IntOp(op: BinOp, x: int, y: int): int
    requires IsIntOp(op)
  {
    match op
    case Add => Wrap(x + y)
    case Mul => Wrap(x * y)
    case _ => Bits(op, x, y)
  }

  /** The operand that a strict commutative operator passes over. */
  function Unit(op: BinOp): int {
    if op.Mul? then 1 else if op.BitAnd? then -1 else 0
  }

  /** The condition, for a pair that is not a bitwise operator over an arithmetic one. */
  predicate Hides(op: BinOp, a: int, op2: BinOp, b: int) {
    match op
    case Add => Wrap(b - Unit(op2)) == 0
    case Mul => Wrap(a * (b - Unit(op2))) == 0
    case BitOr => Bits(BitOr, a, b) == if op2.BitAnd? then -1 else a
    case BitXor => b == Unit(op2)
    case _ => Bits(BitAnd, a, b) == 0
  }

  predicate Comparable(op: BinOp, op2: BinOp) {
    IsIntOp(op) && IsIntOp(op2) && op != op2 && (IsBitwise(op) ==> IsBitwise(op2))
  }

  // ---------- bits ----------

  lemma {:induction false} BitsWithEnds(y: int)
    ensures Bits(BitOr, 0, y) == y && Bits(BitXor, 0, y) == y && Bits(BitAnd, -1, y) == y
    ensures Bits(BitOr, y, 0) == y && Bits(BitXor, y, 0) == y && Bits(BitAnd, y, -1) == y
    ensures Bits(BitOr, y, -1) == -1 && Bits(BitAnd, y, 0) == 0 && Bits(BitXor, y, y) == 0
    decreases Width(y)
  {
    if Width(y) != 0 { BitsWithEnds(y / 2); }
  }

  lemma {:induction false} BitsAddUp(a: int, b: int)
    ensures Bits(BitOr, a, b) + Bits(BitAnd, a, b) == a + b
    ensures Bits(BitXor, a, b) + 2 * Bits(BitAnd, a, b) == a + b
    decreases Width(a) + Width(b)
  {
    if Width(a) != 0 || Width(b) != 0 { BitsAddUp(a / 2, b / 2); }
  }

  lemma {:induction false} BitsSplit(a: int, y: int)
    ensures Bits(BitAnd, a, y) + Bits(BitAnd, -a - 1, y) == y
    decreases Width(a) + Width(y)
  {
    if Width(a) != 0 || Width(y) != 0 {
      assert (-a - 1) / 2 == -(a / 2) - 1 && (-a - 1) % 2 == 1 - a % 2;
      BitsSplit(a / 2, y / 2);
    }
  }

  /** `op` with `a` hides what `op2` with `b` does, bit by bit. */
  predicate BitsHide(op: BinOp, a: int, op2: BinOp, b: int) {
    || (op.BitOr? && op2.BitXor? && Bits(BitOr, a, b) == a)
    || (op.BitOr? && op2.BitAnd? && Bits(BitOr, a, b) == -1)
    || (op.BitAnd? && op2.BitOr? && Bits(BitAnd, a, b) == 0)
    || (op.BitAnd? && op2.BitXor? && Bits(BitAnd, a, b) == 0)
  }

  /** The same of one bit. */
  predicate BitHides(op: BinOp, a: int, op2: BinOp, b: int) {
    || (op.BitOr? && op2.BitXor? && BitFn(BitOr, a, b) == a)
    || (op.BitOr? && op2.BitAnd? && BitFn(BitOr, a, b) == 1)
    || (op.BitAnd? && op2.BitOr? && BitFn(BitAnd, a, b) == 0)
    || (op.BitAnd? && op2.BitXor? && BitFn(BitAnd, a, b) == 0)
  }

  lemma BitHidden(op: BinOp, a: int, op2: BinOp, b: int, y: int)
    requires 0 <= a <= 1 && 0 <= b <= 1 && 0 <= y <= 1
    requires BitHides(op, a, op2, b)
    ensures BitFn(op, a, BitFn(op2, b, y)) == BitFn(op, a, y)
  {
  }

  lemma BitsHideHalves(op: BinOp, a: int, op2: BinOp, b: int)
    requires BitsHide(op, a, op2, b)
    ensures BitsHide(op, a / 2, op2, b / 2) && BitHides(op, a % 2, op2, b % 2)
  {
    BitsUnfold(op, a, b);
    hide Bits;
    hide BitFn;
  }

  lemma {:induction false} BitsHidden(op: BinOp, a: int, op2: BinOp, b: int, y: int)
    requires BitsHide(op, a, op2, b)
    ensures Bits(op, a, Bits(op2, b, y)) == Bits(op, a, y)
    decreases Width(a) + Width(b) + Width(y)
  {
    if Width(a) != 0 || Width(b) != 0 || Width(y) != 0 {
      BitsHideHalves(op, a, op2, b);
      hide Bits;
      hide BitFn;
      BitsHidden(op, a / 2, op2, b / 2, y / 2);
      BitHidden(op, a % 2, op2, b % 2, y % 2);
      hide BitsHide;
      hide BitHides;
      BitsUnfold(op2, b, y);
      BitsUnfold(op, a, Bits(op2, b, y));
      BitsUnfold(op, a, y);
      SameHalves(Bits(op, a, Bits(op2, b, y)), Bits(op, a, y));
    }
  }

  // ---------- multiples of a power of two ----------

  predicate Multiple(x: int, n: nat) {
    x % Pow2(n) == 0
  }

  lemma TimesDivides(x: int, d: int)
    requires d > 0
    ensures (x * d) % d == 0 && (x * d) / d == x
  {
    DivUnique(x * d, d, x, 0);
    assert x * d == (x * d) / d * d + (x * d) % d;
  }

  lemma MultipleOf(x: int, n: nat) returns (k: int)
    requires Multiple(x, n)
    ensures x == k * Pow2(n)
  {
    k := x / Pow2(n);
  }

  lemma MultipleFrom(x: int, k: int, n: nat)
    requires x == k * Pow2(n)
    ensures Multiple(x, n)
  {
    TimesDivides(k, Pow2(n));
  }

  lemma MultiplesAdd(x: int, y: int, n: nat)
    requires Multiple(x, n) && Multiple(y, n)
    ensures Multiple(x + y, n) && Multiple(x - y, n)
  {
    var k := MultipleOf(x, n);
    var l := MultipleOf(y, n);
    MultipleFrom(x + y, k + l, n);
    MultipleFrom(x - y, k - l, n);
  }

  lemma MultiplesScale(x: int, c: int, n: nat)
    requires Multiple(x, n)
    ensures Multiple(c * x, n)
  {
    var k := MultipleOf(x, n);
    assert c * x == (c * k) * Pow2(n);
    MultipleFrom(c * x, c * k, n);
  }

  lemma MultipleHalves(x: int, n: nat)
    requires n > 0
    ensures Multiple(2 * x, n) <==> Multiple(x, n - 1)
  {
    if Multiple(2 * x, n) {
      var k := MultipleOf(2 * x, n);
      assert 2 * x == 2 * (k * Pow2(n - 1));
      MultipleFrom(x, k, n - 1);
    }
    if Multiple(x, n - 1) {
      var k := MultipleOf(x, n - 1);
      assert 2 * x == k * Pow2(n);
      MultipleFrom(2 * x, k, n);
    }
  }

  lemma MultipleIsEven(x: int, n: nat)
    requires n > 0 && Multiple(x, n)
    ensures x % 2 == 0
  {
    var k := MultipleOf(x, n);
    TwiceIsEven(k, Pow2(n - 1));
  }

  lemma TwiceIsEven(k: int, p: int)
    ensures (k * (2 * p)) % 2 == 0
  {
    var q := k * p;
    assert k * (2 * p) == 2 * q;
  }

  /** An odd factor does not make a product a multiple of a power of two. */
  lemma {:induction false} OddCancels(a: int, b: int, n: nat)
    requires b % 2 == 1 && Multiple(a * b, n)
    ensures Multiple(a, n)
    decreases n
  {
    if n == 0 {
      assert Pow2(0) == 1;
    } else {
      MultipleIsEven(a * b, n);
      OddTimes(a, b);
      var h := a / 2;
      assert a == 2 * h;
      assert a * b == 2 * (h * b);
      MultipleHalves(h * b, n);
      OddCancels(h, b, n - 1);
      MultipleHalves(h, n);
    }
  }

  lemma OddTimes(a: int, b: int)
    requires b % 2 == 1 && (a * b) % 2 == 0
    ensures a % 2 == 0
  {
    var k := b / 2;
    assert b == 2 * k + 1;
    assert a == a * b - 2 * (a * k);
  }

  /** If `a * b` is a multiple of a power of two, so is `a` times any part of the bits of `b`. */
  lemma {:induction false} PartIsMultiple(a: int, b: int, m: int, n: nat)
    requires Multiple(a * b, n)
    ensures Multiple(a * Bits(BitAnd, b, m), n)
    decreases n
  {
    hide *;
    if n == 0 {
      MultipleOfOne(a * Bits(BitAnd, b, m));
    } else if b % 2 == 1 {
      OddCancels(a, b, n);
      MultiplesScale(a, Bits(BitAnd, b, m), n);
    } else {
      EvenPart(a, b, m);
      MultipleHalves(a * (b / 2), n);
      PartIsMultiple(a, b / 2, m / 2, n - 1);
      MultipleHalves(a * Bits(BitAnd, b / 2, m / 2), n);
    }
  }

  lemma MultipleOfOne(x: int)
    ensures Multiple(x, 0)
  {
    assert Pow2(0) == 1;
  }

  lemma EvenPart(a: int, b: int, m: int)
    requires b % 2 == 0
    ensures a * b == 2 * (a * (b / 2))
    ensures a * Bits(BitAnd, b, m) == 2 * (a * Bits(BitAnd, b / 2, m / 2))
  {
    BitsUnfold(BitAnd, b, m);
    hide Bits;
    var h, q := b / 2, Bits(BitAnd, b / 2, m / 2);
    assert b == 2 * h;
    assert Bits(BitAnd, b, m) == 2 * q;
    assert a * (2 * h) == 2 * (a * h) && a * (2 * q) == 2 * (a * q);
  }

  // ---------- 64 bits ----------

  lemma Pow2Adds(m: nat, n: nat)
    ensures Pow2(m + n) == Pow2(m) * Pow2(n)
  {
    if m > 0 { Pow2Adds(m - 1, n); }
  }

  lemma TwoTo64()
    ensures Pow2(64) == TWO64
  {
    assert Pow2(8) == 256;
    Pow2Adds(8, 8);
    Pow2Adds(16, 16);
    Pow2Adds(32, 32);
  }

  lemma WrapEqual(x: int, y: int)
    ensures Wrap(x) == Wrap(y) <==> Multiple(x - y, 64)
  {
    TwoTo64();
    if Multiple(x - y, 64) {
      var k := MultipleOf(x - y, 64);
      WrapShift(y, k);
    }
    if Wrap(x) == Wrap(y) {
      var k := WrapIsShift(x);
      var l := WrapIsShift(y);
      assert x - y == (l - k) * TWO64;
      MultipleFrom(x - y, l - k, 64);
    }
  }

  lemma WrapZero(x: int)
    ensures Wrap(x) == 0 <==> Multiple(x, 64)
  {
    assert Wrap(0) == 0;
    WrapEqual(x, 0);
  }

  // ---------- the operators as a whole ----------

  lemma IntOpCommutes(op: BinOp, x: int, y: int)
    requires IsIntOp(op)
    ensures IntOp(op, x, y) == IntOp(op, y, x)
  {
    if IsBitwise(op) { BitsCommute(op, x, y); }
  }

  lemma IntOpAssociates(op: BinOp, x: int, y: int, z: int)
    requires IsIntOp(op)
    ensures IntOp(op, IntOp(op, x, y), z) == IntOp(op, x, IntOp(op, y, z))
  {
    hide Wrap;
    hide Bits;
    match op
    case Add => WrapAddAssociates(x, y, z);
    case Mul => WrapMulAssociates(x, y, z);
    case _ => BitsAssociate(op, x, y, z);
  }

  /** A unit changes a number at most by wrapping it around. */
  lemma UnitPasses(op: BinOp, x: int, y: int)
    requires IsIntOp(op)
    ensures IntOp(op, Unit(op), IntOp(op, x, y)) == IntOp(op, x, y)
    ensures IntOp(op, x, Unit(op)) == if IsBitwise(op) then x else Wrap(x)
  {
    if IsBitwise(op) {
      BitsWithEnds(IntOp(op, x, y));
      BitsWithEnds(x);
    }
  }

  // ---------- hiding, up to multiples of 2^64 ----------

  lemma WrapDrifts(x: int, c: int)
    ensures Multiple(c * (Wrap(x) - x), 64)
  {
    TwoTo64();
    var k := WrapIsShift(x);
    MultipleFrom(Wrap(x) - x, k, 64);
    MultiplesScale(Wrap(x) - x, c, 64);
  }

  lemma DriftByWrapping(c: int, op2: BinOp, b: int, y: int)
    requires op2.Add? || op2.Mul?
    requires Multiple(c * (b - Unit(op2)), 64)
    ensures Multiple(c * (IntOp(op2, b, y) - y), 64)
  {
    hide Multiple;
    hide Wrap;
    var z := if op2.Add? then b + y else b * y;
    WrapDrifts(z, c);
    if op2.Mul? {
      MultiplesScale(c * (b - 1), y, 64);
      assert y * (c * (b - 1)) == c * (z - y);
    }
    MultiplesAdd(c * (Wrap(z) - z), c * (z - y), 64);
    assert c * (Wrap(z) - z) + c * (z - y) == c * (Wrap(z) - y);
  }

  /** Of a difference `e` whose part `p` and whole are multiples, so is any mix of the two. */
  lemma MultiplesMix(c: int, e: int, p: int, n: nat)
    requires Multiple(c * e, n) && Multiple(c * p, n)
    ensures Multiple(c * (e - p), n) && Multiple(c * (e - 2 * p), n) && Multiple(c * -p, n)
  {
    hide Multiple;
    MultiplesAdd(c * e, c * p, n);
    assert c * e - c * p == c * (e - p);
    MultiplesAdd(c * (e - p), c * p, n);
    assert c * (e - p) - c * p == c * (e - 2 * p);
    MultiplesAdd(c * (e - p), c * e, n);
    assert c * (e - p) - c * e == c * -p;
  }

  lemma DriftByBits(c: int, op2: BinOp, b: int, y: int)
    requires op2.BitOr? || op2.BitXor? || op2.BitAnd?
    requires Multiple(c * (b - Unit(op2)), 64)
    ensures Multiple(c * (Bits(op2, b, y) - y), 64)
  {
    hide Multiple;
    hide Bits;
    var e := if op2.BitAnd? then -b - 1 else b;
    var p := Bits(BitAnd, e, y);
    if op2.BitAnd? {
      MultiplesScale(c * (b + 1), -1, 64);
      assert -1 * (c * (b + 1)) == c * e;
      BitsSplit(b, y);
    } else {
      BitsAddUp(b, y);
    }
    PartIsMultiple(c, e, y, 64);
    MultiplesMix(c, e, p, 64);
    assert Bits(op2, b, y) - y == if op2.BitAnd? then -p else if op2.BitOr? then e - p else e - 2 * p;
  }

  lemma Drift(c: int, op2: BinOp, b: int, y: int)
    requires IsIntOp(op2)
    requires Multiple(c * (b - Unit(op2)), 64)
    ensures Multiple(c * (IntOp(op2, b, y) - y), 64)
  {
    hide Multiple;
    if op2.Add? || op2.Mul? {
      DriftByWrapping(c, op2, b, y);
    } else {
      DriftByBits(c, op2, b, y);
    }
  }

  lemma HiddenBySum(a: int, op2: BinOp, b: int, y: int)
    requires Comparable(Add, op2) && Hides(Add, a, op2, b)
    ensures IntOp(Add, a, IntOp(op2, b, y)) == IntOp(Add, a, y)
  {
    hide Multiple;
    WrapZero(b - Unit(op2));
    assert 1 * (b - Unit(op2)) == b - Unit(op2);
    Drift(1, op2, b, y);
    var z := IntOp(op2, b, y);
    hide IntOp;
    assert 1 * (z - y) == (a + z) - (a + y);
    WrapEqual(a + z, a + y);
    assert IntOp(Add, a, z) == Wrap(a + z) && IntOp(Add, a, y) == Wrap(a + y) by {
      SumIs(a, z);
      SumIs(a, y);
    }
  }

  lemma HiddenByProduct(a: int, op2: BinOp, b: int, y: int)
    requires Comparable(Mul, op2) && Hides(Mul, a, op2, b)
    ensures IntOp(Mul, a, IntOp(op2, b, y)) == IntOp(Mul, a, y)
  {
    hide Multiple;
    WrapZero(a * (b - Unit(op2)));
    Drift(a, op2, b, y);
    var z := IntOp(op2, b, y);
    hide IntOp;
    assert a * (z - y) == a * z - a * y;
    WrapEqual(a * z, a * y);
    SumIs(a, z);
    SumIs(a, y);
  }

  lemma SumIs(x: int, y: int)
    ensures IntOp(Add, x, y) == Wrap(x + y) && IntOp(Mul, x, y) == Wrap(x * y)
  {
  }

  lemma HiddenByBits(op: BinOp, a: int, op2: BinOp, b: int, y: int)
    requires Comparable(op, op2) && IsBitwise(op) && Hides(op, a, op2, b)
    ensures Bits(op, a, Bits(op2, b, y)) == Bits(op, a, y)
  {
    hide Bits;
    if op.BitXor? {
      BitsWithEnds(y);
    } else {
      BitsHidden(op, a, op2, b, y);
    }
  }

  lemma Hidden(op: BinOp, a: int, op2: BinOp, b: int, y: int)
    requires Comparable(op, op2) && Hides(op, a, op2, b)
    ensures IntOp(op, a, IntOp(op2, b, y)) == IntOp(op, a, y)
  {
    match op
    case Add => HiddenBySum(a, op2, b, y);
    case Mul => HiddenByProduct(a, op2, b, y);
    case _ => HiddenByBits(op, a, op2, b, y);
  }

  /** An operand that shows the difference when `a op` does not hide it. */
  function Telling(op: BinOp, op2: BinOp): int {
    if op.BitAnd? then 0 else Unit(op2)
  }

  lemma ToldByWrapping(op: BinOp, a: int, op2: BinOp, b: int)
    requires Comparable(op, op2) && !IsBitwise(op) && !Hides(op, a, op2, b)
    ensures IntOp(op, a, IntOp(op2, b, Telling(op, op2))) != IntOp(op, a, Telling(op, op2))
  {
    hide Wrap;
    hide Bits;
    hide Multiple;
    var u := Unit(op2);
    UnitPasses(op2, b, b);
    if op.Add? {
      WrapZero(b - u);
      WrapEqual(a + b, a + u);
      WrapAdd(b, a);
    } else {
      WrapZero(a * (b - u));
      assert a * (b - u) == a * b - a * u;
      WrapEqual(a * b, a * u);
      WrapMul(b, a);
    }
  }

  lemma ToldByBits(op: BinOp, a: int, op2: BinOp, b: int)
    requires Comparable(op, op2) && IsBitwise(op) && !Hides(op, a, op2, b)
    ensures Bits(op, a, Bits(op2, b, Telling(op, op2))) != Bits(op, a, Telling(op, op2))
  {
    hide Bits;
    BitsWithEnds(a);
    BitsWithEnds(b);
    if op.BitXor? {
      XorCancels(a, b, Unit(op2));
    }
  }

  lemma XorCancels(a: int, b: int, c: int)
    ensures Bits(BitXor, a, b) == Bits(BitXor, a, c) ==> b == c
  {
    hide Bits;
    BitsAssociate(BitXor, a, a, b);
    BitsAssociate(BitXor, a, a, c);
    BitsWithEnds(a);
    BitsWithEnds(b);
    BitsWithEnds(c);
  }

  lemma Told(op: BinOp, a: int, op2: BinOp, b: int)
    requires Comparable(op, op2) && !Hides(op, a, op2, b)
    ensures IntOp(op, a, IntOp(op2, b, Telling(op, op2))) != IntOp(op, a, Telling(op, op2))
  {
    if IsBitwise(op) {
      ToldByBits(op, a, op2, b);
      hide Bits;
      hide Hides;
    } else {
      ToldByWrapping(op, a, op2, b);
      hide IntOp;
    }
  }

  /** `a op` hides `b op2` exactly when `Hides` says so. */
  lemma HidesExactly(op: BinOp, a: int, op2: BinOp, b: int)
    requires Comparable(op, op2)
    ensures (forall y :: IntOp(op, a, IntOp(op2, b, y)) == IntOp(op, a, y)) <==> Hides(op, a, op2, b)
  {
    hide Hides;
    hide IntOp;
    hide Telling;
    if Hides(op, a, op2, b) {
      forall y ensures IntOp(op, a, IntOp(op2, b, y)) == IntOp(op, a, y) {
        Hidden(op, a, op2, b, y);
      }
    } else {
      Told(op, a, op2, b);
    }
  }
}
