/**
 What the operators compute, said without their definitions: exact results up to
 2^64, division with remainder, orders, truth tables, single bits and shifts.
 */
module OperatorLaws {
  import opened Values
  import opened Hiding

  predicate InRange(n: int) {
    -TWO63 <= n < TWO63
  }

  /** `v` is a number worth `n`. */
  predicate Counts(v: Value, n: int) {
    v == Int(n) || (v == Bool(true) && n == 1) || (v == Bool(false) && n == 0)
  }

  predicate Known(v: Value) {
    !v.Undefined? && !v.Error?
  }

  /** `r` is the 64-bit number that is congruent to `n`. */
  predicate IsWrapped(r: int, n: int) {
    InRange(r) && (r - n) % TWO64 == 0
  }

  lemma WrapIsWrapped(n: int)
    ensures IsWrapped(Wrap(n), n)
    ensures InRange(n) ==> Wrap(n) == n
  {
    var k := WrapIsShift(n);
    TimesDivides(k, TWO64);
  }

  // ---------- arithmetic ----------

  lemma SumsDifferencesProducts(x: Value, a: int, y: Value, b: int)
    requires Counts(x, a) && Counts(y, b)
    ensures DoOperation(Add, x, y).Int? && IsWrapped(DoOperation(Add, x, y).i, a + b)
    ensures DoOperation(Sub, x, y).Int? && IsWrapped(DoOperation(Sub, x, y).i, a - b)
    ensures DoOperation(Mul, x, y).Int? && IsWrapped(DoOperation(Mul, x, y).i, a * b)
  {
    hide IsWrapped;
    hide Wrap;
    WrapIsWrapped(a + b);
    WrapIsWrapped(a - b);
    WrapIsWrapped(a * b);
  }

  lemma SubtractionUndoesAddition(a: int, b: int)
    requires InRange(a)
    ensures DoOperation(Sub, DoOperation(Add, Int(a), Int(b)), Int(b)) == Int(a)
    ensures DoOperation(Add, DoOperation(Sub, Int(a), Int(b)), Int(b)) == Int(a)
  {
    WrapAdd(a + b, -b);
    WrapAdd(a - b, b);
    WrapIsWrapped(a);
    hide Wrap;
  }

  /** Truncating division: the remainder is smaller than the divisor and has the sign of the dividend. */
  predicate Divides(a: int, b: int, q: int, r: int) {
    && a == q * b + r
    && (if b > 0 then -b < r < b else b < r < -b)
    && (a >= 0 ==> r >= 0) && (a <= 0 ==> r <= 0)
  }

  lemma TruncDivides(a: int, b: int)
    requires b != 0
    ensures Divides(a, b, TruncDiv(a, b), TruncMod(a, b))
  {
    var m, n := Magnitude(a), Magnitude(b);
    var q: int, r: int, k: int := m / n, m % n, n;
    assert m == q * k + r && 0 <= r < k;
    assert (-q) * k == -(q * k) && q * (-k) == -(q * k) && (-q) * (-k) == q * k;
  }

  lemma QuotientShrinks(m: nat, n: nat)
    requires n > 0
    ensures m / n <= m && (m > 0 && n > 1 ==> m / n < m)
  {
    var q := m / n;
    assert m == q * n + m % n;
    if n > 1 && q > 0 {
      assert q * n == q + q * (n - 1);
      assert q * (n - 1) >= n - 1 by { MultipleBounds(q, n - 1); }
    } else if n == 1 {
      assert q * 1 == q;
    }
  }

  /** The one quotient that does not fit is that of the smallest number by -1. */
  lemma QuotientFits(a: int, b: int)
    requires InRange(a) && b != 0
    ensures InRange(TruncDiv(a, b)) <==> !(a == -TWO63 && b == -1)
  {
    var m, n := Magnitude(a), Magnitude(b);
    QuotientShrinks(m, n);
    assert n == 1 ==> m / n == m;
    assert m / n <= TWO63 && (m / n == TWO63 <==> m == TWO63 && n == 1);
  }

  lemma DivisionValue(x: Value, a: int, y: Value, b: int)
    requires Counts(x, a) && Counts(y, b)
    ensures DoOperation(Div, x, y) == if b == 0 then Error else Int(Wrap(TruncDiv(a, b)))
    ensures DoOperation(Mod, x, y) == if b == 0 then Error else Int(TruncMod(a, b))
  {
    hide Wrap;
    hide TruncDiv;
    hide TruncMod;
  }

  lemma DivisionWithRemainder(x: Value, a: int, y: Value, b: int)
    requires Counts(x, a) && Counts(y, b) && InRange(a)
    ensures b == 0 ==> DoOperation(Div, x, y) == Error == DoOperation(Mod, x, y)
    ensures b != 0 ==> DoOperation(Div, x, y).Int? && DoOperation(Mod, x, y).Int?
    ensures b != 0 && !(a == -TWO63 && b == -1) ==>
      Divides(a, b, DoOperation(Div, x, y).i, DoOperation(Mod, x, y).i)
    ensures a == -TWO63 && b == -1 ==> DoOperation(Div, x, y) == Int(a) && DoOperation(Mod, x, y) == Int(0)
  {
    DivisionValue(x, a, y, b);
    hide DoOperation;
    hide Divides;
    hide Wrap;
    hide TruncDiv;
    hide TruncMod;
    if a == -TWO63 && b == -1 {
      SmallestByMinusOne();
    } else if b != 0 {
      TruncDivides(a, b);
      QuotientFits(a, b);
      WrapIsWrapped(TruncDiv(a, b));
    }
  }

  lemma SmallestByMinusOne()
    ensures TruncDiv(-TWO63, -1) == TWO63 && TruncMod(-TWO63, -1) == 0 && Wrap(TWO63) == -TWO63
  {
  }

  /** Strict operators pass on ERROR, and then UNDEFINED; a wrong type is an error among known operands. */
  lemma ExceptionalOperands(op: BinOp, x: Value, y: Value)
    requires op != Is && op != Isnt && op != And && op != Or
    ensures x.Error? || y.Error? ==> DoOperation(op, x, y) == Error
    ensures (x.Undefined? && !y.Error?) || (y.Undefined? && !x.Error?) ==> DoOperation(op, x, y) == Undefined
    ensures Known(x) && Known(y) && (x.Str? != y.Str? || (x.Str? && op in {Add, Sub, Mul, Div, Mod})) ==>
      DoOperation(op, x, y) == Error
    ensures Known(x) && Known(y) && op in {BitOr, BitXor, BitAnd, Shl, Shr, UShr} && !(x.Int? && y.Int?) ==>
      DoOperation(op, x, y) == Error
  {
    hide Wrap;
    hide Bits;
    hide ShiftRight;
    hide UnsignedShiftRight;
    hide TruncDiv;
    hide TruncMod;
    hide CompareStrings;
  }

  // ---------- comparison ----------

  lemma NumbersCompare(x: Value, a: int, y: Value, b: int)
    requires Counts(x, a) && Counts(y, b)
    ensures DoOperation(Lt, x, y) == Bool(a < b) && DoOperation(Ge, x, y) == Bool(a >= b)
    ensures DoOperation(Gt, x, y) == Bool(a > b) && DoOperation(Le, x, y) == Bool(a <= b)
    ensures DoOperation(Eq, x, y) == Bool(a == b) && DoOperation(Ne, x, y) == Bool(a != b)
    ensures DoOperation(Is, x, y) == Bool(a == b) && DoOperation(Isnt, x, y) == Bool(a != b)
  {
  }

  /** The small letters and every other character for themselves. */
  lemma {:induction false} LowerExactly(s: string)
    ensures |Lower(s)| == |s|
    ensures forall i :: 0 <= i < |s| ==>
      Lower(s)[i] as int == s[i] as int + if 'A' <= s[i] <= 'Z' then 32 else 0
  {
    if s != "" {
      LowerExactly(s[1..]);
      assert forall i :: 1 <= i < |s| ==> s[i] == s[1..][i - 1];
    }
  }

  /** `s` and `t` agree up to `i`, where `s` ends first or has the smaller character. */
  predicate DiffersAt(s: string, t: string, i: nat) {
    && i <= |s| && i < |t| && s[..i] == t[..i]
    && (i == |s| || s[i] < t[i])
  }

  /** Dictionary order. */
  predicate Before(s: string, t: string) {
    exists i: nat :: i <= |s| && DiffersAt(s, t, i)
  }

  lemma {:induction false} DictionaryOrder(s: string, t: string)
    ensures CompareStrings(s, t) == -1 ==> Before(s, t)
    ensures CompareStrings(s, t) == 0 ==> s == t
    ensures CompareStrings(s, t) == 1 ==> Before(t, s)
    ensures -1 <= CompareStrings(s, t) <= 1
  {
    if s == "" && t == "" {
    } else if s == "" {
      assert DiffersAt(s, t, 0);
    } else if t == "" {
      assert DiffersAt(t, s, 0);
    } else if s[0] < t[0] {
      assert DiffersAt(s, t, 0);
    } else if s[0] > t[0] {
      assert DiffersAt(t, s, 0);
    } else {
      DictionaryOrder(s[1..], t[1..]);
      if Before(s[1..], t[1..]) { BeforeGrows(s, t); }
      if Before(t[1..], s[1..]) { BeforeGrows(t, s); }
      assert s[1..] == t[1..] ==> [s[0]] + s[1..] == [t[0]] + t[1..];
    }
  }

  lemma BeforeGrows(s: string, t: string)
    requires s != "" && t != "" && s[0] == t[0] && Before(s[1..], t[1..])
    ensures Before(s, t)
  {
    var i: nat :| i <= |s[1..]| && DiffersAt(s[1..], t[1..], i);
    assert s[..i + 1] == [s[0]] + s[1..][..i] && t[..i + 1] == [t[0]] + t[1..][..i];
    assert DiffersAt(s, t, i + 1);
  }

  lemma DiffersOnce(s: string, t: string, i: nat, j: nat)
    requires DiffersAt(s, t, i) && j < |s| && j <= |t|
    ensures !DiffersAt(t, s, j)
  {
    assert j < i ==> s[..i][j] == s[j] && t[..i][j] == t[j];
    assert i < j ==> s[..j][i] == s[i] && t[..j][i] == t[i];
  }

  /** No two strings come before each other, and none before itself. */
  lemma BeforeIsStrict(s: string, t: string)
    requires Before(s, t)
    ensures s != t && !Before(t, s)
  {
    var i: nat :| i <= |s| && DiffersAt(s, t, i);
    forall j: nat | j <= |t| ensures !DiffersAt(t, s, j) {
      if j < |s| { DiffersOnce(s, t, i, j); }
    }
  }

  lemma CompareIsOrder(s: string, t: string)
    ensures CompareStrings(s, t) < 0 <==> Before(s, t)
    ensures CompareStrings(s, t) == 0 <==> s == t
    ensures CompareStrings(s, t) > 0 <==> Before(t, s)
  {
    DictionaryOrder(s, t);
    if Before(s, t) { BeforeIsStrict(s, t); }
    if Before(t, s) { BeforeIsStrict(t, s); }
    hide Before;
    if s == t { SameCompares(s); }
    hide CompareStrings;
  }

  lemma {:induction false} SameCompares(s: string)
    ensures CompareStrings(s, s) == 0
  {
    if s != "" { SameCompares(s[1..]); }
  }

  /** Strings are ordered as in a dictionary without regard to case. */
  lemma StringsCompare(s: string, t: string)
    ensures DoOperation(Lt, Str(s), Str(t)) == Bool(Before(Lower(s), Lower(t)))
    ensures DoOperation(Gt, Str(s), Str(t)) == Bool(Before(Lower(t), Lower(s)))
    ensures DoOperation(Le, Str(s), Str(t)) == Bool(!Before(Lower(t), Lower(s)))
    ensures DoOperation(Ge, Str(s), Str(t)) == Bool(!Before(Lower(s), Lower(t)))
    ensures DoOperation(Eq, Str(s), Str(t)) == Bool(Lower(s) == Lower(t))
    ensures DoOperation(Ne, Str(s), Str(t)) == Bool(Lower(s) != Lower(t))
  {
    hide Before;
    hide CompareStrings;
    hide Lower;
    CompareIsOrder(Lower(s), Lower(t));
  }

  /** `is` is always decided: it takes equal numbers and equal values for the same. */
  lemma IdentityDecided(x: Value, y: Value)
    ensures DoOperation(Is, x, y) ==
      Bool(x == y || exists n :: Counts(x, n) && Counts(y, n))
    ensures DoOperation(Isnt, x, y) == Bool(DoOperation(Is, x, y) == Bool(false))
  {
    if x.Bool? || x.Int? {
      assert Counts(x, NumberOf(x));
    }
  }

  // ---------- logic ----------

  /** false, UNDEFINED and true as 0, 1 and 2. */
  function Degree(v: Value): int {
    if v == Bool(false) then 0 else if v == Bool(true) then 2 else 1
  }

  predicate IsTruth(v: Value) {
    v.Bool? || v.Undefined?
  }

  /** On truth values && is the lesser and || the greater operand, and ! turns the order round. */
  lemma TruthTables(x: Value, y: Value)
    requires IsTruth(x) && IsTruth(y)
    ensures var r := DoOperation(And, x, y);
      IsTruth(r) && Degree(r) == if Degree(x) <= Degree(y) then Degree(x) else Degree(y)
    ensures var r := DoOperation(Or, x, y);
      IsTruth(r) && Degree(r) == if Degree(x) >= Degree(y) then Degree(x) else Degree(y)
    ensures IsTruth(DoUnary(Not, x)) && Degree(DoUnary(Not, x)) == 2 - Degree(x)
    ensures Combined(And, x, y) == DoOperation(And, x, y) && Combined(Or, x, y) == DoOperation(Or, x, y)
  {
  }

  /** Any other operand makes an error of && and ||, unless a left operand settles the result before it is looked at. */
  lemma LogicalErrors(op: BinOp, x: Value, y: Value)
    requires op == And || op == Or
    ensures Combined(op, Bool(op == Or), y) == Bool(op == Or)
    ensures !IsTruth(x) ==> Combined(op, x, y) == Error
    ensures x != Bool(op == Or) && !IsTruth(y) ==> Combined(op, x, y) == Error
  {
  }

  // ---------- bits ----------

  /** Bit `k` of a two's-complement number. */
  function BitAt(a: int, k: nat): int {
    (a / Pow2(k)) % 2
  }

  lemma BitAtHalves(a: int, k: nat)
    requires k > 0
    ensures BitAt(a, k) == BitAt(a / 2, k - 1)
  {
    var h, p := a / 2, Pow2(k - 1);
    assert a == 2 * h + a % 2;
    var q, m := h / p, h % p;
    assert h == q * p + m;
    var r := 2 * m + a % 2;
    assert a == q * (2 * p) + r && 0 <= r < 2 * p;
    DivUnique(a, 2 * p, q, r);
  }

  lemma {:induction false} BitwiseBits(a: int, b: int, k: nat)
    ensures BitAt(Bits(BitOr, a, b), k) == 1 <==> BitAt(a, k) == 1 || BitAt(b, k) == 1
    ensures BitAt(Bits(BitAnd, a, b), k) == 1 <==> BitAt(a, k) == 1 && BitAt(b, k) == 1
    ensures BitAt(Bits(BitXor, a, b), k) == 1 <==> BitAt(a, k) != BitAt(b, k)
    decreases k
  {
    BitsUnfold(BitOr, a, b);
    BitsUnfold(BitAnd, a, b);
    BitsUnfold(BitXor, a, b);
    hide Bits;
    if k == 0 {
      assert Pow2(0) == 1;
    } else {
      BitAtHalves(a, k);
      BitAtHalves(b, k);
      BitAtHalves(Bits(BitOr, a, b), k);
      BitAtHalves(Bits(BitAnd, a, b), k);
      BitAtHalves(Bits(BitXor, a, b), k);
      BitwiseBits(a / 2, b / 2, k - 1);
      hide BitAt;
      hide BitFn;
    }
  }

  /** Each bit of a bitwise result is decided by the two bits in its place. */
  lemma BitwiseOperators(a: int, b: int, k: nat)
    ensures var r := DoOperation(BitOr, Int(a), Int(b));
      r.Int? && (BitAt(r.i, k) == 1 <==> BitAt(a, k) == 1 || BitAt(b, k) == 1)
    ensures var r := DoOperation(BitAnd, Int(a), Int(b));
      r.Int? && (BitAt(r.i, k) == 1 <==> BitAt(a, k) == 1 && BitAt(b, k) == 1)
    ensures var r := DoOperation(BitXor, Int(a), Int(b));
      r.Int? && (BitAt(r.i, k) == 1 <==> BitAt(a, k) != BitAt(b, k))
  {
    hide Bits;
    hide BitAt;
    BitwiseBits(a, b, k);
  }

  lemma ShiftsAreBitwise(op: BinOp, a: int, n: int)
    requires op == Shl || op == Shr || op == UShr
    ensures DoOperation(op, Int(a), Int(n)) == Bitwise(op, Int(a), Int(n))
  {
    hide Bitwise;
  }

  lemma LeftShiftValue(a: int, n: nat)
    requires n < 64
    ensures Bitwise(Shl, Int(a), Int(n)) == Int(Wrap(a * Pow2(n)))
  {
    CountKeeps(n);
    hide Count;
    hide Wrap;
  }

  lemma RightShiftValues(a: int, n: nat)
    ensures Bitwise(Shr, Int(a), Int(n)) == Int(ShiftRight(a, n))
    ensures Bitwise(UShr, Int(a), Int(n)) == Int(UnsignedShiftRight(a, n))
  {
    hide ShiftRight;
    hide UnsignedShiftRight;
  }

  lemma CountKeeps(n: nat)
    requires n < 64
    ensures Count(n) == n
  {
  }

  lemma RightShiftsFloor(a: int, n: nat)
    requires InRange(a) && n < 64
    ensures ShiftRight(a, n) == a / Pow2(n)
    ensures a >= 0 || n > 0 ==> UnsignedShiftRight(a, n) == (if a >= 0 then a else a + TWO64) / Pow2(n)
  {
    assert Count(n) == n && Pow2(0) == 1;
    if a < 0 && n > 0 {
      assert Count(n - 1) == n - 1;
      UnsignedHalf(a, n);
    }
    hide Pow2;
  }

  /** Shifts by 0 to 63 are products and floored quotients with a power of two; `>>>` takes the number as unsigned. */
  lemma ShiftsExact(a: int, n: nat)
    requires InRange(a) && n < 64
    ensures DoOperation(Shl, Int(a), Int(n)).Int? && IsWrapped(DoOperation(Shl, Int(a), Int(n)).i, a * Pow2(n))
    ensures DoOperation(Shr, Int(a), Int(n)) == Int(a / Pow2(n))
    ensures a >= 0 || n > 0 ==>
      DoOperation(UShr, Int(a), Int(n)) == Int((if a >= 0 then a else a + TWO64) / Pow2(n))
  {
    ShiftsAreBitwise(Shl, a, n);
    ShiftsAreBitwise(Shr, a, n);
    ShiftsAreBitwise(UShr, a, n);
    LeftShiftValue(a, n);
    RightShiftValues(a, n);
    RightShiftsFloor(a, n);
    WrapIsWrapped(a * Pow2(n));
    hide *;
  }

  lemma UnsignedHalf(a: int, n: nat)
    requires -TWO63 <= a < 0 && 0 < n < 64
    ensures ((a / 2) % TWO63) / Pow2(n - 1) == (a + TWO64) / Pow2(n)
  {
    assert (a / 2) % TWO63 == (a + TWO64) / 2;
    var u, p := a + TWO64, Pow2(n - 1);
    HalfThenQuotient(u, p);
    assert Pow2(n) == 2 * p;
  }

  lemma HalfThenQuotient(u: int, p: int)
    requires p > 0
    ensures (u / 2) / p == u / (2 * p)
  {
    var h := u / 2;
    var q, m := h / p, h % p;
    assert u == 2 * h + u % 2 && h == q * p + m;
    var r := 2 * m + u % 2;
    assert u == q * (2 * p) + r && 0 <= r < 2 * p;
    DivUnique(u, 2 * p, q, r);
  }

  // ---------- unary operators ----------

  lemma UnaryOperators(a: int)
    requires InRange(a)
    ensures DoUnary(UPlus, Int(a)) == Int(a)
    ensures DoOperation(Add, DoUnary(UMinus, Int(a)), Int(a)) == Int(0)
    ensures DoUnary(UMinus, Int(a)).Int? && InRange(DoUnary(UMinus, Int(a)).i)
    ensures DoOperation(Add, DoUnary(BitNot, Int(a)), Int(a)) == Int(-1)
    ensures DoUnary(BitNot, DoUnary(BitNot, Int(a))) == Int(a)
  {
    WrapAdd(-a, a);
  }

  /** A unary operator keeps ERROR and UNDEFINED and makes an error of a wrong type, `-true` included. */
  lemma UnaryErrors(op: UnOp, v: Value)
    ensures !Known(v) ==> DoUnary(op, v) == v
    ensures Known(v) && (if op == Not then !v.Bool? else !v.Int?) ==> DoUnary(op, v) == Error
  {
  }
}
