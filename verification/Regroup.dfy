/**
 Regrouping the operands of a strict commutative operator.  ERROR absorbs
 everything and UNDEFINED everything else, so a value of a wrong type is
 reported or overlooked depending on which operand it meets first.
 */
module Regrouping {
  import opened Values
  import opened Hiding
  import opened MixedOperators

  /** Two known operands whose types the operator does not take. */
  predicate Clash(op: BinOp, x: Value, y: Value) {
    !x.Undefined? && !y.Undefined? && !(Fits(op, x) && Fits(op, y))
  }

  /** `(a op b) op c` can be regrouped so that `p op q` comes first. */
  predicate Regroups(op: BinOp, a: Value, b: Value, c: Value, p: Value, q: Value) {
    || a.Error? || b.Error? || c.Error?
    || (!a.Undefined? && !b.Undefined? && !c.Undefined?)
    || (Clash(op, a, b) <==> Clash(op, p, q))
  }

  /** `(a op b) op (c op d)` can be regrouped to `(a op c) op (b op d)`. */
  predicate Exchanges(op: BinOp, a: Value, b: Value, c: Value, d: Value) {
    || a.Error? || b.Error? || c.Error? || d.Error?
    || (!a.Undefined? && !b.Undefined? && !c.Undefined? && !d.Undefined?)
    || (Clash(op, a, b) || Clash(op, c, d) <==> Clash(op, a, c) || Clash(op, b, d))
  }

  // ---------- two levels of a strict operator, spelled out ----------

  function Three(op: BinOp, a: Value, b: Value, c: Value): Value
    requires IsIntOp(op)
  {
    if a.Error? || b.Error? || c.Error? then Error
    else if a.Undefined? || b.Undefined? || c.Undefined? then if Clash(op, a, b) then Error else Undefined
    else if IsNumeral(op, a) && IsNumeral(op, b) && IsNumeral(op, c) then
      Int(IntOp(op, IntOp(op, NumberOf(a), NumberOf(b)), NumberOf(c)))
    else Error
  }

  lemma ThreeValue(op: BinOp, a: Value, b: Value, c: Value)
    requires IsIntOp(op)
    ensures Strict(op, Strict(op, a, b), c) == Three(op, a, b, c)
  {
    hide IntOp;
  }

  function Four(op: BinOp, a: Value, b: Value, c: Value, d: Value): Value
    requires IsIntOp(op)
  {
    if a.Error? || b.Error? || c.Error? || d.Error? then Error
    else if a.Undefined? || b.Undefined? || c.Undefined? || d.Undefined? then
      if Clash(op, a, b) || Clash(op, c, d) then Error else Undefined
    else if IsNumeral(op, a) && IsNumeral(op, b) && IsNumeral(op, c) && IsNumeral(op, d) then
      Int(IntOp(op, IntOp(op, NumberOf(a), NumberOf(b)), IntOp(op, NumberOf(c), NumberOf(d))))
    else Error
  }

  lemma FourValue(op: BinOp, a: Value, b: Value, c: Value, d: Value)
    requires IsIntOp(op)
    ensures Strict(op, Strict(op, a, b), Strict(op, c, d)) == Four(op, a, b, c, d)
  {
    hide IntOp;
  }

  lemma IntOpExchanges(op: BinOp, a: int, b: int, c: int, d: int)
    requires IsIntOp(op)
    ensures IntOp(op, IntOp(op, a, b), IntOp(op, c, d)) == IntOp(op, IntOp(op, a, c), IntOp(op, b, d))
  {
    hide IntOp;
    IntOpAssociates(op, a, b, IntOp(op, c, d));
    IntOpAssociates(op, b, c, d);
    IntOpCommutes(op, b, c);
    IntOpAssociates(op, c, b, d);
    IntOpAssociates(op, a, c, IntOp(op, b, d));
  }

  // ---------- the three regroupings ----------

  /** `(a op b) op c` as `a op (b op c)`. */
  lemma RotatesExactly(op: BinOp, a: Value, b: Value, c: Value)
    requires IsIntOp(op)
    ensures Strict(op, Strict(op, a, b), c) == Strict(op, a, Strict(op, b, c)) <==> Regroups(op, a, b, c, b, c)
  {
    ThreeValue(op, a, b, c);
    ThreeValue(op, b, c, a);
    SpelledCommutes(op, a, Strict(op, b, c));
    hide Strict;
    hide IntOp;
    if IsNumeral(op, a) && IsNumeral(op, b) && IsNumeral(op, c) {
      var n := IntOp(op, NumberOf(b), NumberOf(c));
      IntOpAssociates(op, NumberOf(a), NumberOf(b), NumberOf(c));
      IntOpCommutes(op, NumberOf(a), n);
    }
  }

  /** `(a op b) op c` as `(a op c) op b`. */
  lemma SwapsExactly(op: BinOp, a: Value, b: Value, c: Value)
    requires IsIntOp(op)
    ensures Strict(op, Strict(op, a, b), c) == Strict(op, Strict(op, a, c), b) <==> Regroups(op, a, b, c, a, c)
  {
    ThreeValue(op, a, b, c);
    ThreeValue(op, a, c, b);
    hide Strict;
    hide IntOp;
    if IsNumeral(op, a) && IsNumeral(op, b) && IsNumeral(op, c) {
      IntOpAssociates(op, NumberOf(a), NumberOf(b), NumberOf(c));
      IntOpCommutes(op, NumberOf(b), NumberOf(c));
      IntOpAssociates(op, NumberOf(a), NumberOf(c), NumberOf(b));
    }
  }

  lemma NumbersExchange(op: BinOp, a: Value, b: Value, c: Value, d: Value)
    requires IsIntOp(op)
    requires !a.Error? && !b.Error? && !c.Error? && !d.Error?
    requires !a.Undefined? && !b.Undefined? && !c.Undefined? && !d.Undefined?
    ensures Four(op, a, b, c, d) == Four(op, a, c, b, d)
  {
    hide IntOp;
    if IsNumeral(op, a) && IsNumeral(op, b) && IsNumeral(op, c) && IsNumeral(op, d) {
      IntOpExchanges(op, NumberOf(a), NumberOf(b), NumberOf(c), NumberOf(d));
    }
  }

  lemma FourExactly(op: BinOp, a: Value, b: Value, c: Value, d: Value)
    requires IsIntOp(op)
    ensures Four(op, a, b, c, d) == Four(op, a, c, b, d) <==> Exchanges(op, a, b, c, d)
  {
    hide Clash;
    hide IntOp;
    hide Fits;
    if a.Error? || b.Error? || c.Error? || d.Error? {
    } else if a.Undefined? || b.Undefined? || c.Undefined? || d.Undefined? {
    } else {
      NumbersExchange(op, a, b, c, d);
      hide Four;
    }
  }

  /** `(a op b) op (c op d)` as `(a op c) op (b op d)`. */
  lemma ExchangesExactly(op: BinOp, a: Value, b: Value, c: Value, d: Value)
    requires IsIntOp(op)
    ensures Strict(op, Strict(op, a, b), Strict(op, c, d)) == Strict(op, Strict(op, a, c), Strict(op, b, d))
       <==> Exchanges(op, a, b, c, d)
  {
    hide Strict;
    hide Four;
    hide Exchanges;
    FourValue(op, a, b, c, d);
    FourValue(op, a, c, b, d);
    FourExactly(op, a, b, c, d);
  }
}
