/**
 Two pending values under one operator: `(v1 op x) op (v2 op2 y)`, or the same
 with its operands exchanged.  `combine` keeps `v1 op (x op y)` of it and drops
 both `v2` and `op2`.  For which values is nothing lost?
 */
module MixedOperators {
  import opened Values
  import opened Hiding

  predicate Truth(v: Value) {
    v.Bool? || v.Undefined?
  }

  /** The operand values over which a strict commutative operator is associative. */
  predicate Fits(op: BinOp, v: Value) {
    match op
    case Add => !v.Str?
    case Mul => !v.Str?
    case _ => !v.Str? && !v.Bool?
  }

  /** The values an operand of `op` is meant to take. */
  predicate Operand(op: BinOp, v: Value) {
    if IsLogical(op) then Truth(v) else Fits(op, v)
  }

  function Original(op: BinOp, v1: Value, op2: BinOp, v2: Value, mirrored: bool, x: Value, y: Value): Value {
    var l, r := Combined(op, v1, x), Combined(op2, v2, y);
    if mirrored then Combined(op, r, l) else Combined(op, l, r)
  }

  function Kept(op: BinOp, v1: Value, mirrored: bool, x: Value, y: Value): Value {
    Combined(op, v1, if mirrored then Combined(op, y, x) else Combined(op, x, y))
  }

  predicate Keeps(op: BinOp, v1: Value, op2: BinOp, v2: Value, mirrored: bool, x: Value, y: Value) {
    Original(op, v1, op2, v2, mirrored, x, y) == Kept(op, v1, mirrored, x, y)
  }

  // ---------- the condition ----------

  /** A number for `op`: + and * take a boolean for one, the bitwise operators do not. */
  predicate IsNumeral(op: BinOp, v: Value) {
    v.Int? || (v.Bool? && (op.Add? || op.Mul?))
  }

  /** `true &&` and `false ||` change nothing. */
  predicate ChangesNothing(op2: BinOp, v2: Value) {
    IsLogical(op2) && v2 == Bool(op2 == And)
  }

  predicate StrictHarmless(op: BinOp, v1: Value, op2: BinOp, v2: Value) {
    if v1.Error? then true
    else if IsLogical(op2) then
      || (ChangesNothing(op2, v2) && (if IsBitwise(op) then v1.Int? else !v1.Str?))
      || (!IsBitwise(op) && v1.Undefined? && v2.Undefined?)
    else if !Comparable(op, op2) then false
    else if v1.Undefined? then Fits(op2, v2) && !v2.Error?
    else
      && IsNumeral(op, v1) && IsNumeral(op2, v2)
      && Hides(op, NumberOf(v1), op2, NumberOf(v2))
  }

  predicate LogicalHarmless(v1: Value, op2: BinOp, v2: Value, mirrored: bool) {
    if !Truth(v1) then !(mirrored && ChangesNothing(op2, v2))
    else if IsLogical(op2) then ChangesNothing(op2, v2)
    else IsBitwise(op2) && !v2.Undefined? && !v2.Error?
  }

  predicate Harmless(op: BinOp, v1: Value, op2: BinOp, v2: Value, mirrored: bool) {
    if IsLogical(op) then LogicalHarmless(v1, op2, v2, mirrored) else StrictHarmless(op, v1, op2, v2)
  }

  /** The two operators and the values pending on them. */
  predicate IsMixed(op: BinOp, v1: Value, op2: BinOp, v2: Value) {
    && IsCommutative(op) && IsCommutative(op2) && op != op2
    && !ShortCircuits(op, v1) && !ShortCircuits(op2, v2)
  }

  // ---------- the operators, spelled out ----------

  function Strict(op: BinOp, x: Value, y: Value): Value
    requires IsIntOp(op)
  {
    if x.Error? || y.Error? then Error
    else if x.Undefined? || y.Undefined? then Undefined
    else if !IsNumeral(op, x) || !IsNumeral(op, y) then Error
    else Int(IntOp(op, NumberOf(x), NumberOf(y)))
  }

  lemma StrictValue(op: BinOp, x: Value, y: Value)
    requires IsIntOp(op)
    ensures Combined(op, x, y) == DoOperation(op, x, y) == Strict(op, x, y)
  {
    hide Wrap;
    hide Bits;
  }

  function Joined(op: BinOp, x: Value, y: Value): Value
    requires IsLogical(op)
  {
    if ShortCircuits(op, x) then x else Logical(op, x, y)
  }

  lemma JoinedValue(op: BinOp, x: Value, y: Value)
    requires IsLogical(op)
    ensures Combined(op, x, y) == Joined(op, x, y)
  {
    hide Logical;
  }

  lemma SpelledCommutes(op: BinOp, x: Value, y: Value)
    requires IsIntOp(op)
    ensures Strict(op, x, y) == Strict(op, y, x)
  {
    hide IntOp;
    if IsNumeral(op, x) && IsNumeral(op, y) { IntOpCommutes(op, NumberOf(x), NumberOf(y)); }
  }

  lemma SpelledAssociates(op: BinOp, x: Value, y: Value, z: Value)
    requires IsIntOp(op)
    requires Fits(op, x) && Fits(op, y) && Fits(op, z)
    ensures Strict(op, Strict(op, x, y), z) == Strict(op, x, Strict(op, y, z))
  {
    hide IntOp;
    if IsNumeral(op, x) && IsNumeral(op, y) && IsNumeral(op, z) {
      IntOpAssociates(op, NumberOf(x), NumberOf(y), NumberOf(z));
    }
  }

  // ---------- under a strict operator ----------

  /** What `Keeps` compares under a strict operator, in either order of the operands. */
  lemma StrictSides(op: BinOp, v1: Value, op2: BinOp, v2: Value, mirrored: bool, x: Value, y: Value)
    requires IsIntOp(op)
    ensures Keeps(op, v1, op2, v2, mirrored, x, y) <==>
      Strict(op, Strict(op, v1, x), Combined(op2, v2, y)) == Strict(op, v1, Strict(op, x, y))
  {
    var l, r := Strict(op, v1, x), Combined(op2, v2, y);
    StrictValue(op, v1, x);
    StrictValue(op, x, y);
    StrictValue(op, y, x);
    SpelledCommutes(op, x, y);
    StrictValue(op, v1, Strict(op, x, y));
    StrictValue(op, l, r);
    StrictValue(op, r, l);
    SpelledCommutes(op, l, r);
    hide Strict;
    hide Combined;
  }

  lemma NothingChanged(op: BinOp, v1: Value, op2: BinOp, v2: Value, x: Value, y: Value)
    requires IsIntOp(op) && ChangesNothing(op2, v2) && (if IsBitwise(op) then v1.Int? else !v1.Str?)
    requires Fits(op, x) && Truth(y)
    ensures Combined(op2, v2, y) == y
    ensures Strict(op, Strict(op, v1, x), y) == Strict(op, v1, Strict(op, x, y))
  {
    if !IsBitwise(op) { SpelledAssociates(op, v1, x, y); }
    hide IntOp;
  }

  lemma UndefinedHides(op: BinOp, op2: BinOp, v2: Value, x: Value, y: Value)
    requires IsIntOp(op) && StrictHarmless(op, Undefined, op2, v2) && !ChangesNothing(op2, v2)
    requires IsCommutative(op2) && op != op2
    requires Fits(op, x) && Operand(op2, y)
    ensures Strict(op, Strict(op, Undefined, x), Combined(op2, v2, y)) == Strict(op, Undefined, Strict(op, x, y))
  {
    hide IntOp;
    if !IsLogical(op2) {
      StrictValue(op2, v2, y);
      hide Combined;
    }
  }

  lemma NumbersHide(op: BinOp, v1: Value, op2: BinOp, v2: Value, x: Value, y: Value)
    requires Comparable(op, op2) && IsNumeral(op, v1) && IsNumeral(op2, v2)
    requires Hides(op, NumberOf(v1), op2, NumberOf(v2))
    requires Fits(op, x) && Fits(op2, y)
    ensures Strict(op, Strict(op, v1, x), Strict(op2, v2, y)) == Strict(op, v1, Strict(op, x, y))
  {
    hide IntOp;
    hide Hides;
    var r := Strict(op2, v2, y);
    SpelledCommutes(op, v1, x);
    SpelledAssociates(op, x, v1, r);
    SpelledAssociates(op, x, v1, y);
    SpelledAssociates(op, v1, x, y);
    if IsNumeral(op2, y) {
      Hidden(op, NumberOf(v1), op2, NumberOf(v2), NumberOf(y));
      assert Strict(op, v1, r) == Strict(op, v1, y);
    }
  }

  lemma StrictKept(op: BinOp, v1: Value, op2: BinOp, v2: Value, mirrored: bool, x: Value, y: Value)
    requires IsMixed(op, v1, op2, v2) && !IsLogical(op) && StrictHarmless(op, v1, op2, v2)
    requires Fits(op, x) && Operand(op2, y)
    ensures Keeps(op, v1, op2, v2, mirrored, x, y)
  {
    hide Keeps;
    hide IntOp;
    hide Hides;
    hide Combined;
    StrictSides(op, v1, op2, v2, mirrored, x, y);
    if v1.Error? {
    } else if ChangesNothing(op2, v2) {
      NothingChanged(op, v1, op2, v2, x, y);
      hide Strict;
    } else if v1.Undefined? {
      UndefinedHides(op, op2, v2, x, y);
      hide Strict;
    } else {
      StrictValue(op2, v2, y);
      NumbersHide(op, v1, op2, v2, x, y);
      hide Strict;
    }
  }

  /** Operands that show what is lost under a strict operator. */
  function StrictX(op: BinOp, v1: Value, op2: BinOp, v2: Value): Value {
    if IsNumeral(op, v1) && IsNumeral(op2, v2) && Comparable(op, op2) then Int(Unit(op)) else Int(0)
  }

  function StrictY(op: BinOp, v1: Value, op2: BinOp, v2: Value): Value {
    if IsLogical(op2) then
      if v1.Undefined? && !IsBitwise(op) then Undefined
      else if (v1.Undefined? || IsNumeral(op, v1)) && Truth(v2) then Bool(op2 == And)
      else Undefined
    else if !v1.Undefined? && !IsNumeral(op, v1) then Undefined
    else if IsBitwise(op) && !IsBitwise(op2) then
      if v2.Error? || v2.Str? then Int(0) else Bool(true)
    else if IsNumeral(op, v1) && IsNumeral(op2, v2) then Int(Telling(op, op2))
    else Int(0)
  }

  lemma UnitTold(op: BinOp, a: int, op2: BinOp, b: int)
    requires Comparable(op, op2) && !Hides(op, a, op2, b)
    ensures var t := Telling(op, op2);
      IntOp(op, IntOp(op, a, Unit(op)), IntOp(op2, b, t)) != IntOp(op, a, IntOp(op, Unit(op), t))
  {
    hide IntOp;
    hide Hides;
    hide Unit;
    hide Telling;
    var u, t := Unit(op), Telling(op, op2);
    Told(op, a, op2, b);
    var n := IntOp(op2, b, t);
    IntOpCommutes(op, a, u);
    IntOpAssociates(op, u, a, n);
    UnitPasses(op, a, n);
    IntOpAssociates(op, a, u, t);
    IntOpAssociates(op, u, a, t);
    UnitPasses(op, a, t);
  }

  lemma NumbersTold(op: BinOp, v1: Value, op2: BinOp, v2: Value)
    requires Comparable(op, op2) && IsNumeral(op, v1) && IsNumeral(op2, v2)
    requires !Hides(op, NumberOf(v1), op2, NumberOf(v2))
    ensures var x, y := Int(Unit(op)), Int(Telling(op, op2));
      Strict(op, Strict(op, v1, x), Strict(op2, v2, y)) != Strict(op, v1, Strict(op, x, y))
  {
    hide IntOp;
    hide Hides;
    hide Telling;
    hide Unit;
    UnitTold(op, NumberOf(v1), op2, NumberOf(v2));
  }

  /** The value that is lost belongs to && or ||. */
  lemma LostLogical(op: BinOp, v1: Value, op2: BinOp, v2: Value)
    requires IsMixed(op, v1, op2, v2) && !IsLogical(op) && !StrictHarmless(op, v1, op2, v2) && IsLogical(op2)
    ensures var y := StrictY(op, v1, op2, v2);
      && Operand(op2, y)
      && Strict(op, Strict(op, v1, Int(0)), Combined(op2, v2, y)) != Strict(op, v1, Strict(op, Int(0), y))
  {
    hide IntOp;
    hide Hides;
    hide Telling;
    hide DoOperation;
    JoinedValue(op2, v2, StrictY(op, v1, op2, v2));
    hide Combined;
  }

  /** The operands are not all numbers, or a bitwise operator stands over an arithmetic one. */
  lemma LostMismatch(op: BinOp, v1: Value, op2: BinOp, v2: Value)
    requires IsMixed(op, v1, op2, v2) && !IsLogical(op) && !StrictHarmless(op, v1, op2, v2) && !IsLogical(op2)
    requires !(Comparable(op, op2) && IsNumeral(op, v1) && IsNumeral(op2, v2))
    ensures var y := StrictY(op, v1, op2, v2);
      && Operand(op2, y)
      && Strict(op, Strict(op, v1, Int(0)), Strict(op2, v2, y)) != Strict(op, v1, Strict(op, Int(0), y))
  {
    hide IntOp;
    hide Hides;
    hide Telling;
  }

  lemma StrictLost(op: BinOp, v1: Value, op2: BinOp, v2: Value, mirrored: bool)
    requires IsMixed(op, v1, op2, v2) && !IsLogical(op) && !StrictHarmless(op, v1, op2, v2)
    ensures var x, y := StrictX(op, v1, op2, v2), StrictY(op, v1, op2, v2);
      Fits(op, x) && Operand(op2, y) && !Keeps(op, v1, op2, v2, mirrored, x, y)
  {
    hide Keeps;
    hide Hides;
    hide Telling;
    hide Unit;
    hide Strict;
    hide Combined;
    var x, y := StrictX(op, v1, op2, v2), StrictY(op, v1, op2, v2);
    StrictSides(op, v1, op2, v2, mirrored, x, y);
    if IsLogical(op2) {
      LostLogical(op, v1, op2, v2);
    } else {
      StrictValue(op2, v2, y);
      if Comparable(op, op2) && IsNumeral(op, v1) && IsNumeral(op2, v2) {
        NumbersTold(op, v1, op2, v2);
      } else {
        LostMismatch(op, v1, op2, v2);
      }
    }
  }

  // ---------- under a logical operator ----------

  /** `Keeps` under a logical operator, for the value `r` of `v2 op2 y`. */
  predicate Joins(op: BinOp, v1: Value, r: Value, mirrored: bool, x: Value, y: Value)
    requires IsLogical(op)
  {
    if mirrored then Joined(op, r, Joined(op, v1, x)) == Joined(op, v1, Joined(op, y, x))
    else Joined(op, Joined(op, v1, x), r) == Joined(op, v1, Joined(op, x, y))
  }

  lemma LogicalSides(op: BinOp, v1: Value, op2: BinOp, v2: Value, mirrored: bool, x: Value, y: Value)
    requires IsLogical(op)
    ensures Keeps(op, v1, op2, v2, mirrored, x, y) <==> Joins(op, v1, Combined(op2, v2, y), mirrored, x, y)
  {
    var l, r := Combined(op, v1, x), Combined(op2, v2, y);
    JoinedValue(op, v1, x);
    JoinedValue(op, x, y);
    JoinedValue(op, y, x);
    JoinedValue(op, v1, Combined(op, x, y));
    JoinedValue(op, v1, Combined(op, y, x));
    JoinedValue(op, l, r);
    JoinedValue(op, r, l);
    hide Combined;
    hide Joined;
  }

  lemma KeptLogical(op: BinOp, v1: Value, op2: BinOp, v2: Value, mirrored: bool, x: Value, y: Value)
    requires IsMixed(op, v1, op2, v2) && IsLogical(op) && LogicalHarmless(v1, op2, v2, mirrored) && IsLogical(op2)
    requires Truth(x) && Truth(y)
    ensures Joins(op, v1, Joined(op2, v2, y), mirrored, x, y)
  {
  }

  lemma KeptStrict(op: BinOp, v1: Value, op2: BinOp, v2: Value, mirrored: bool, x: Value, y: Value)
    requires IsMixed(op, v1, op2, v2) && IsLogical(op) && LogicalHarmless(v1, op2, v2, mirrored) && !IsLogical(op2)
    requires Truth(x) && Fits(op2, y)
    ensures Joins(op, v1, Strict(op2, v2, y), mirrored, x, y)
  {
    hide IntOp;
  }

  lemma LogicalKept(op: BinOp, v1: Value, op2: BinOp, v2: Value, mirrored: bool, x: Value, y: Value)
    requires IsMixed(op, v1, op2, v2) && IsLogical(op) && LogicalHarmless(v1, op2, v2, mirrored)
    requires Truth(x) && Operand(op2, y)
    ensures Keeps(op, v1, op2, v2, mirrored, x, y)
  {
    hide Keeps;
    hide Joins;
    hide Combined;
    hide LogicalHarmless;
    LogicalSides(op, v1, op2, v2, mirrored, x, y);
    if IsLogical(op2) {
      JoinedValue(op2, v2, y);
      KeptLogical(op, v1, op2, v2, mirrored, x, y);
    } else {
      StrictValue(op2, v2, y);
      KeptStrict(op, v1, op2, v2, mirrored, x, y);
    }
  }

  /** Operands that show what is lost under a logical operator. */
  function LogicalX(op: BinOp, v1: Value): Value {
    if Truth(v1) then Bool(op == And) else Undefined
  }

  function LogicalY(op: BinOp, v1: Value, op2: BinOp, v2: Value): Value {
    if !Truth(v1) || !IsBitwise(op2) then Bool(op == Or)
    else if v2.Undefined? then Int(0)
    else Undefined
  }

  lemma LostToLogical(op: BinOp, v1: Value, op2: BinOp, v2: Value, mirrored: bool)
    requires IsMixed(op, v1, op2, v2) && IsLogical(op) && !LogicalHarmless(v1, op2, v2, mirrored) && IsLogical(op2)
    ensures var x, y := LogicalX(op, v1), Bool(op == Or);
      Truth(x) && !Joins(op, v1, Joined(op2, v2, y), mirrored, x, y)
  {
  }

  lemma LostToStrict(op: BinOp, v1: Value, op2: BinOp, v2: Value, mirrored: bool)
    requires IsMixed(op, v1, op2, v2) && IsLogical(op) && !LogicalHarmless(v1, op2, v2, mirrored) && !IsLogical(op2)
    ensures var x, y := LogicalX(op, v1), LogicalY(op, v1, op2, v2);
      Truth(x) && Operand(op2, y) && !Joins(op, v1, Strict(op2, v2, y), mirrored, x, y)
  {
    var y := LogicalY(op, v1, op2, v2);
    assert Truth(v1) && Operand(op2, y);
    assert var r := Strict(op2, v2, y);
      if y.Bool? then !r.Bool? else if y.Int? then r.Undefined? else r.Error? by { hide IntOp; }
    hide Strict;
  }

  lemma LogicalLost(op: BinOp, v1: Value, op2: BinOp, v2: Value, mirrored: bool)
    requires IsMixed(op, v1, op2, v2) && IsLogical(op) && !LogicalHarmless(v1, op2, v2, mirrored)
    ensures var x, y := LogicalX(op, v1), LogicalY(op, v1, op2, v2);
      Truth(x) && Operand(op2, y) && !Keeps(op, v1, op2, v2, mirrored, x, y)
  {
    hide Keeps;
    hide Joins;
    hide Combined;
    hide LogicalHarmless;
    var x, y := LogicalX(op, v1), LogicalY(op, v1, op2, v2);
    LogicalSides(op, v1, op2, v2, mirrored, x, y);
    if IsLogical(op2) {
      JoinedValue(op2, v2, y);
      LostToLogical(op, v1, op2, v2, mirrored);
    } else {
      StrictValue(op2, v2, y);
      LostToStrict(op, v1, op2, v2, mirrored);
    }
  }

  // ---------- the theorem ----------

  lemma HarmlessKeeps(op: BinOp, v1: Value, op2: BinOp, v2: Value, mirrored: bool, x: Value, y: Value)
    requires IsMixed(op, v1, op2, v2) && Harmless(op, v1, op2, v2, mirrored)
    requires Operand(op, x) && Operand(op2, y)
    ensures Keeps(op, v1, op2, v2, mirrored, x, y)
  {
    hide Keeps;
    if IsLogical(op) {
      LogicalKept(op, v1, op2, v2, mirrored, x, y);
    } else {
      StrictKept(op, v1, op2, v2, mirrored, x, y);
    }
  }

  lemma HarmfulLoses(op: BinOp, v1: Value, op2: BinOp, v2: Value, mirrored: bool) returns (x: Value, y: Value)
    requires IsMixed(op, v1, op2, v2) && !Harmless(op, v1, op2, v2, mirrored)
    ensures Operand(op, x) && Operand(op2, y) && !Keeps(op, v1, op2, v2, mirrored, x, y)
  {
    hide Keeps;
    if IsLogical(op) {
      LogicalLost(op, v1, op2, v2, mirrored);
      x, y := LogicalX(op, v1), LogicalY(op, v1, op2, v2);
    } else {
      StrictLost(op, v1, op2, v2, mirrored);
      x, y := StrictX(op, v1, op2, v2), StrictY(op, v1, op2, v2);
    }
  }

  /** Dropping `v2 op2` loses nothing, whatever the operands, exactly when it is harmless. */
  lemma HarmlessExactly(op: BinOp, v1: Value, op2: BinOp, v2: Value, mirrored: bool)
    requires IsMixed(op, v1, op2, v2)
    ensures (forall x, y :: Operand(op, x) && Operand(op2, y) ==> Keeps(op, v1, op2, v2, mirrored, x, y))
       <==> Harmless(op, v1, op2, v2, mirrored)
  {
    hide Keeps;
    hide Harmless;
    hide Operand;
    if Harmless(op, v1, op2, v2, mirrored) {
      forall x, y | Operand(op, x) && Operand(op2, y) ensures Keeps(op, v1, op2, v2, mirrored, x, y) {
        HarmlessKeeps(op, v1, op2, v2, mirrored, x, y);
      }
    } else {
      var x, y := HarmfulLoses(op, v1, op2, v2, mirrored);
    }
  }
}
