/**
 Expression trees, their evaluation, and `Flatten`, the partial evaluator.

 A flattened expression is a value, a tree, or a pending triple
 (operator, value, tree) that stands for `value operator tree`.
 */
module Flattening {
  import opened Values
  import opened Hiding
  import opened MixedOperators
  import opened Regrouping

  datatype Expr =
    | Lit(v: Value)
    | Ref(name: string)
    | Paren(e: Expr)
    | Un(uop: UnOp, e: Expr)
    | Bin(op: BinOp, l: Expr, r: Expr)
    | Cond(c: Expr, t: Expr, f: Expr)

  /** The attributes of the ad in whose scope an expression is evaluated. */
  type Scope = map<string, Expr>

  // ---------- evaluation ----------

  /**
   `Evaluate`.  Following a reference uses up one unit of `depth_remaining`;
   None is the `false` return when it runs out.
   */
  function Eval(e: Expr, env: Scope, d: nat): Option<Value>
    decreases d, e
  {
    match e
    case Lit(v) => Some(v)
    case Ref(name) =>
      if name !in env then Some(Undefined)
      else if d == 0 then None
      else Eval(env[name], env, d - 1)
    case Paren(e1) => Eval(e1, env, d)
    case Un(op, e1) =>
      var o := Eval(e1, env, d);
      if o.None? then None else Some(DoUnary(op, o.value))
    case Bin(op, l, r) =>
      var o := Eval(l, env, d);
      if o.None? then None
      else if ShortCircuits(op, o.value) then Some(o.value)
      else
        var o2 := Eval(r, env, d);
        if o2.None? then None else Some(DoOperation(op, o.value, o2.value))
    case Cond(c, t, f) =>
      var o := Eval(c, env, d);
      if o.None? then None
      else if o.value.Bool? then Eval(if o.value.b then t else f, env, d)
      else
        var o2 := Eval(t, env, d);
        var o3 := Eval(f, env, d);
        if o2.None? || o3.None? then None
        else Some(if o.value.Undefined? then Undefined else Error)
  }

  // ---------- flattening ----------

  /** What is left of an expression; `Pending` stands for `val op tree`. */
  datatype Residual =
    | Val(val: Value)
    | Tree(tree: Expr)
    | Pending(op: BinOp, val: Value, tree: Expr)

  /** `MakeLiteral` and `MakeOperation(op, val, tree)`: the residual as one tree. */
  function AsTree(r: Residual): Expr {
    match r
    case Val(v) => Lit(v)
    case Tree(t) => t
    case Pending(op, v, t) => Bin(op, Lit(v), t)
  }

  /** `Flatten` without a place for a pending operator folds the value into the tree. */
  function Fold(r: Residual): Residual {
    if r.Pending? then Tree(AsTree(r)) else r
  }

  /** The operand `combine` feeds to its don't-care test. */
  function KnownOrUndefined(r: Residual): Value {
    if r.Val? then r.val else Undefined
  }

  /** `combine`: put the flattened children of a commutative operator together. */
  function Combine(op: BinOp, r1: Residual, r2: Residual): Residual {
    var settled := DoOperation(op, KnownOrUndefined(r1), KnownOrUndefined(r2));
    if IsLogical(op) && r1.Val? != r2.Val? && settled.Bool? then Val(settled)
    else if r1.Val? && r2.Val? then Val(DoOperation(op, r1.val, r2.val))
    else if r1.Val? && r2.Tree? then Pending(op, r1.val, r2.tree)
    else if r2.Val? && r1.Tree? then Pending(op, r2.val, r1.tree)
    else if r1.Tree? && r2.Tree? then Tree(Bin(op, r1.tree, r2.tree))
    else
      var same1, same2 := r1.Pending? && r1.op == op, r2.Pending? && r2.op == op;
      if !same1 && !same2 then Tree(Bin(op, AsTree(r1), AsTree(r2)))
      else if same1 && same2 then Pending(op, DoOperation(op, r1.val, r2.val), Bin(op, r1.tree, r2.tree))
      else if same1 then
        if r2.Val? then Pending(op, DoOperation(op, r1.val, r2.val), r1.tree)
        else Pending(op, r1.val, Bin(op, r1.tree, r2.tree))
      else
        if r1.Val? then Pending(op, DoOperation(op, r1.val, r2.val), r2.tree)
        else Pending(op, r2.val, Bin(op, r1.tree, r2.tree))
  }

  /**
   `_Flatten` in `scope`.  `inline` is `flattenAndInline`; None is the `false`
   return on exhausted depth.
   */
  function Flat(e: Expr, scope: Scope, d: nat, inline: bool): Option<Residual>
    decreases d, e
  {
    match e
    case Lit(v) => Some(Val(v))
    case Ref(name) =>
      if name !in scope then Some(Tree(e))
      else if d == 0 then None
      else
        var o := Flat(scope[name], scope, d - 1, inline);
        if o.None? then None
        else if o.value.Val? then o
        else if inline then Some(Fold(o.value))
        else Some(Tree(e))
    case Paren(e1) =>
      var o := Flat(e1, scope, d, inline);
      if o.None? then None
      else if o.value.Val? then o
      else Some(Tree(Paren(AsTree(o.value))))
    case Un(op, e1) =>
      var o := Flat(e1, scope, d, inline);
      if o.None? then None
      else if o.value.Val? then Some(Val(DoUnary(op, o.value.val)))
      else Some(Tree(Un(op, AsTree(o.value))))
    case Bin(op, l, r) =>
      var o1 := Flat(l, scope, d, inline);
      var o2 := Flat(r, scope, d, inline);
      if o1.None? || o2.None? then None
      else if IsCommutative(op) then Some(Combine(op, o1.value, o2.value))
      else if o1.value.Val? && o2.value.Val? then Some(Val(DoOperation(op, o1.value.val, o2.value.val)))
      else Some(Tree(Bin(op, AsTree(o1.value), AsTree(o2.value))))
    case Cond(c, t, f) =>
      var o := Flat(c, scope, d, inline);
      if o.None? then None
      else if o.value.Val? && o.value.val.Bool? then
        var a := Flat(if o.value.val.b then t else f, scope, d, inline);
        if a.None? then None else Some(Fold(a.value))
      else if o.value.Val? && !o.value.val.Undefined? then Some(Val(Error))
      else
        var o2 := Flat(t, scope, d, inline);
        var o3 := Flat(f, scope, d, inline);
        if o2.None? || o3.None? then None
        else
          var sel := if o.value.Val? then c else AsTree(o.value);
          Some(Tree(Cond(sel, AsTree(o2.value), AsTree(o3.value))))
  }

  // ---------- when flattening is sound ----------

  /**
   The shape in which `combine` drops a value: one child is pending on the
   parent's operator and the other is pending on a different one.
   */
  predicate Mixed(op: BinOp, r1: Residual, r2: Residual) {
    r1.Pending? && r2.Pending? && (r1.op == op) != (r2.op == op)
  }

  predicate SameOp(op: BinOp, r: Residual) {
    r.Pending? && r.op == op
  }

  /** `t` evaluates to a value that an operand of `op` is meant to take. */
  ghost predicate OperandIn(op: BinOp, t: Expr, env: Scope, d: nat) {
    Eval(t, env, d).Some? && Operand(op, Eval(t, env, d).value)
  }

  /** What is dropped from the mixed shape is harmless. */
  ghost predicate MixedFits(op: BinOp, r1: Residual, r2: Residual, env: Scope, d: nat)
    requires Mixed(op, r1, r2)
  {
    && OperandIn(r1.op, r1.tree, env, d) && OperandIn(r2.op, r2.tree, env, d)
    && if SameOp(op, r1) then Harmless(op, r1.val, r2.op, r2.val, false)
       else Harmless(op, r2.val, r1.op, r1.val, true)
  }

  /** The don't-care rule drops the left operand for a settled right one. */
  predicate DropsLeft(op: BinOp, r1: Residual, r2: Residual) {
    !r1.Val? && r2.Val? && ShortCircuits(op, r2.val)
  }

  /** When the left operand settles the result, no value of a wrong type is put in front of it. */
  predicate SettledFits(op: BinOp, r1: Residual, r2: Residual) {
    if r1.Val? then r2.Val? ==> !r2.val.Int? && !r2.val.Str?
    else if r2.Val? then (r1.Pending? && r1.op != op) || Truth(r2.val)
    else SameOp(op, r2) ==> Truth(r2.val)
  }

  /** The conditions on a logical node; v1 is the value of its left operand. */
  predicate LogicalFits(op: BinOp, r1: Residual, r2: Residual, v1: Value) {
    && (ShortCircuits(op, v1) ==> SettledFits(op, r1, r2))
    && (DropsLeft(op, r1, r2) ==> Truth(v1))
  }

  ghost function ValueIn(t: Expr, env: Scope, d: nat): Value {
    if Eval(t, env, d).Some? then Eval(t, env, d).value else Undefined
  }

  /** The conditions on a strict node: its operands can be regrouped the way `combine` does. */
  ghost predicate StrictFits(op: BinOp, r1: Residual, r2: Residual, env: Scope, d: nat, v1: Value, v2: Value) {
    if SameOp(op, r1) && SameOp(op, r2) then
      Exchanges(op, r1.val, ValueIn(r1.tree, env, d), r2.val, ValueIn(r2.tree, env, d))
    else if SameOp(op, r1) then
      var x := ValueIn(r1.tree, env, d);
      Regroups(op, r1.val, x, v2, if r2.Val? then r1.val else x, v2)
    else if SameOp(op, r2) then
      var y := ValueIn(r2.tree, env, d);
      Regroups(op, r2.val, y, v1, if r1.Val? then r2.val else y, v1)
    else true
  }

  /** The conditions on one commutative node; v1 and v2 are its operand values. */
  ghost predicate NodeFits(op: BinOp, r1: Residual, r2: Residual, env: Scope, d: nat, v1: Value, v2: Option<Value>) {
    if Mixed(op, r1, r2) then MixedFits(op, r1, r2, env, d)
    else if IsLogical(op) then LogicalFits(op, r1, r2, v1)
    else v2.Some? ==> StrictFits(op, r1, r2, env, d, v1, v2.value)
  }

  /**
   The conditions on every node that an evaluation in `env` reaches, through
   the definitions of the attributes in `scope`.
   */
  ghost predicate Flattenable(e: Expr, scope: Scope, env: Scope, d: nat, inline: bool)
    decreases d, e
  {
    match e
    case Lit(_) => true
    case Ref(name) => name in scope && d > 0 ==> Flattenable(scope[name], scope, env, d - 1, inline)
    case Paren(e1) => Flattenable(e1, scope, env, d, inline)
    case Un(_, e1) => Flattenable(e1, scope, env, d, inline)
    case Bin(op, l, r) =>
      var v1 := Eval(l, env, d);
      var o1, o2 := Flat(l, scope, d, inline), Flat(r, scope, d, inline);
      && Flattenable(l, scope, env, d, inline)
      && (v1.Some? && !ShortCircuits(op, v1.value) ==> Flattenable(r, scope, env, d, inline))
      && (IsCommutative(op) && v1.Some? && o1.Some? && o2.Some? ==>
            NodeFits(op, o1.value, o2.value, env, d, v1.value,
                     if ShortCircuits(op, v1.value) then None else Eval(r, env, d)))
    case Cond(c, t, f) =>
      var v := Eval(c, env, d);
      && Flattenable(c, scope, env, d, inline)
      && (v.Some? && v != Some(Bool(false)) ==> Flattenable(t, scope, env, d, inline))
      && (v.Some? && v != Some(Bool(true)) ==> Flattenable(f, scope, env, d, inline))
  }

  predicate Extends(scope: Scope, env: Scope) {
    forall k :: k in scope ==> k in env && env[k] == scope[k]
  }

  // ---------- algebra of the operators ----------

  lemma {:induction false} StrictCommutes(op: BinOp, x: Value, y: Value)
    requires IsCommutative(op) && !IsLogical(op)
    ensures DoOperation(op, x, y) == DoOperation(op, y, x)
  {
    hide DoOperation;
    hide Strict;
    StrictValue(op, x, y);
    StrictValue(op, y, x);
    SpelledCommutes(op, x, y);
  }

  lemma {:induction false} StrictAssociates(op: BinOp, x: Value, y: Value, z: Value)
    requires IsCommutative(op) && !IsLogical(op)
    requires Fits(op, x) && Fits(op, y) && Fits(op, z)
    ensures DoOperation(op, DoOperation(op, x, y), z) == DoOperation(op, x, DoOperation(op, y, z))
  {
    hide DoOperation;
    hide Strict;
    StrictValue(op, x, y);
    StrictValue(op, y, z);
    StrictValue(op, Strict(op, x, y), z);
    StrictValue(op, x, Strict(op, y, z));
    SpelledAssociates(op, x, y, z);
  }

  lemma {:induction false} ResultFits(op: BinOp, x: Value, y: Value)
    requires IsCommutative(op) && !IsLogical(op)
    ensures Fits(op, DoOperation(op, x, y))
  {
    StrictValue(op, x, y);
    hide DoOperation;
    hide IntOp;
  }

  /** A truth value of a pending && or ||; the settling one never stays pending. */
  predicate Neutral(op: BinOp, v: Value) {
    IsLogical(op) && Truth(v) && !ShortCircuits(op, v)
  }

  // Neutral values slide past any operand of && and ||, ERROR included.

  lemma {:induction false} NeutralJoins(op: BinOp, v: Value, w: Value)
    requires Neutral(op, v) && Neutral(op, w)
    ensures Neutral(op, DoOperation(op, v, w))
    ensures DoOperation(op, v, w) == Combined(op, v, w)
  {
  }

  lemma {:induction false} NeutralCommutes(op: BinOp, v: Value, x: Value)
    requires Neutral(op, v)
    ensures Combined(op, x, v) == Combined(op, v, x)
    ensures ShortCircuits(op, Combined(op, v, x)) <==> ShortCircuits(op, x)
  {
  }

  lemma {:induction false} NeutralAssociates(op: BinOp, v: Value, x: Value, y: Value)
    requires Neutral(op, v)
    ensures Combined(op, Combined(op, v, x), y) == Combined(op, v, Combined(op, x, y))
  {
    hide Combined;
    JoinedValue(op, v, x);
    JoinedValue(op, x, y);
    JoinedValue(op, Joined(op, v, x), y);
    JoinedValue(op, v, Joined(op, x, y));
  }

  lemma {:induction false} NeutralPasses(op: BinOp, w: Value, x: Value, y: Value)
    requires Neutral(op, w)
    ensures Combined(op, x, Combined(op, w, y)) == Combined(op, w, Combined(op, x, y))
  {
    hide Combined;
    JoinedValue(op, w, y);
    JoinedValue(op, x, y);
    JoinedValue(op, x, Joined(op, w, y));
    JoinedValue(op, w, Joined(op, x, y));
  }

  // A value of a wrong type is an error wherever it meets a value that does not settle the result.

  lemma {:induction false} ErrorLeft(op: BinOp, w: Value, x: Value)
    requires IsLogical(op) && !Truth(w)
    ensures DoOperation(op, w, x) == Error == Combined(op, w, x)
  {
  }

  lemma {:induction false} ErrorRight(op: BinOp, v: Value, w: Value)
    requires IsLogical(op) && !Truth(w) && !ShortCircuits(op, v)
    ensures DoOperation(op, v, w) == Error == Combined(op, v, w)
  {
  }

  // ---------- soundness of one node ----------

  /** A pending operator is commutative and its value does not settle it. */
  predicate WellPending(r: Residual) {
    r.Pending? ==> IsCommutative(r.op) && !ShortCircuits(r.op, r.val)
  }

  lemma {:induction false} CombineWellPending(op: BinOp, r1: Residual, r2: Residual)
    requires IsCommutative(op) && WellPending(r1) && WellPending(r2)
    ensures WellPending(Combine(op, r1, r2))
  {
  }

  lemma {:induction false} FlatWellPending(e: Expr, scope: Scope, d: nat, inline: bool)
    ensures Flat(e, scope, d, inline).Some? ==> WellPending(Flat(e, scope, d, inline).value)
    decreases d, e
  {
    match e
    case Lit(_) =>
    case Ref(name) => if name in scope && d > 0 { FlatWellPending(scope[name], scope, d - 1, inline); }
    case Paren(e1) => FlatWellPending(e1, scope, d, inline);
    case Un(_, e1) => FlatWellPending(e1, scope, d, inline);
    case Bin(op, l, r) =>
      FlatWellPending(l, scope, d, inline);
      FlatWellPending(r, scope, d, inline);
      var o1, o2 := Flat(l, scope, d, inline), Flat(r, scope, d, inline);
      if IsCommutative(op) && o1.Some? && o2.Some? { CombineWellPending(op, o1.value, o2.value); }
    case Cond(c, t, f) =>
  }

  /** `v` is the value of `a op b` whose operands are worth v1 and v2. */
  function Result(op: BinOp, v1: Value, v2: Option<Value>): Option<Value> {
    if ShortCircuits(op, v1) then Some(v1)
    else if v2.None? then None
    else Some(DoOperation(op, v1, v2.value))
  }

  lemma {:induction false} EvalJoin(op: BinOp, t1: Expr, t2: Expr, env: Scope, d: nat)
    requires Eval(t1, env, d).Some?
    ensures var x := Eval(t1, env, d).value;
      Eval(Bin(op, t1, t2), env, d) ==
        if ShortCircuits(op, x) then Some(x)
        else if Eval(t2, env, d).None? then None
        else Some(Combined(op, x, Eval(t2, env, d).value))
  {
  }

  /** The value of a pending triple, and of one built around a joined tree. */
  lemma {:induction false} EvalPending(op: BinOp, v: Value, t: Expr, env: Scope, d: nat)
    requires !ShortCircuits(op, v)
    ensures Eval(Bin(op, Lit(v), t), env, d) ==
      if Eval(t, env, d).None? then None else Some(Combined(op, v, Eval(t, env, d).value))
  {
    EvalJoin(op, Lit(v), t, env, d);
  }

  /** What is known of a strict node when its operands are evaluated. */
  ghost predicate StrictNode(op: BinOp, r1: Residual, r2: Residual, env: Scope, d: nat, v1: Value, v2: Value) {
    && IsCommutative(op) && !IsLogical(op) && !Mixed(op, r1, r2)
    && Eval(AsTree(r1), env, d) == Some(v1) && Eval(AsTree(r2), env, d) == Some(v2)
  }

  /** Flattening the node keeps its meaning exactly when its operands can be regrouped. */
  ghost predicate StrictExact(op: BinOp, r1: Residual, r2: Residual, env: Scope, d: nat, v1: Value, v2: Value) {
    (Eval(AsTree(Combine(op, r1, r2)), env, d) == Some(DoOperation(op, v1, v2))) ==
      StrictFits(op, r1, r2, env, d, v1, v2)
  }

  /** The value of a strict operator's pending triple. */
  lemma {:induction false} EvalStrict(op: BinOp, v: Value, t: Expr, env: Scope, d: nat)
    requires IsIntOp(op)
    ensures Eval(Bin(op, Lit(v), t), env, d) ==
      if Eval(t, env, d).None? then None else Some(Strict(op, v, Eval(t, env, d).value))
  {
    hide DoOperation;
    hide Strict;
    EvalPending(op, v, t, env, d);
    if Eval(t, env, d).Some? { StrictValue(op, v, Eval(t, env, d).value); }
  }

  lemma {:induction false} StrictBothPending(op: BinOp, r1: Residual, r2: Residual, env: Scope, d: nat,
                                             v1: Value, v2: Value)
    requires StrictNode(op, r1, r2, env, d, v1, v2) && SameOp(op, r1) && SameOp(op, r2)
    ensures StrictExact(op, r1, r2, env, d, v1, v2)
  {
    hide DoOperation;
    hide Strict;
    hide Exchanges;
    var x, y := ValueIn(r1.tree, env, d), ValueIn(r2.tree, env, d);
    EvalStrict(op, r1.val, r1.tree, env, d);
    EvalStrict(op, r2.val, r2.tree, env, d);
    EvalJoin(op, r1.tree, r2.tree, env, d);
    StrictValue(op, x, y);
    StrictValue(op, r1.val, r2.val);
    EvalStrict(op, Strict(op, r1.val, r2.val), Bin(op, r1.tree, r2.tree), env, d);
    StrictValue(op, v1, v2);
    ExchangesExactly(op, r1.val, x, r2.val, y);
  }

  lemma {:induction false} StrictLeftPending(op: BinOp, r1: Residual, r2: Residual, env: Scope, d: nat,
                                             v1: Value, v2: Value)
    requires StrictNode(op, r1, r2, env, d, v1, v2) && SameOp(op, r1) && !SameOp(op, r2)
    ensures StrictExact(op, r1, r2, env, d, v1, v2)
  {
    hide DoOperation;
    hide Strict;
    hide Regroups;
    var x := ValueIn(r1.tree, env, d);
    EvalStrict(op, r1.val, r1.tree, env, d);
    StrictValue(op, v1, v2);
    if r2.Val? {
      StrictValue(op, r1.val, v2);
      EvalStrict(op, Strict(op, r1.val, v2), r1.tree, env, d);
      SwapsExactly(op, r1.val, x, v2);
    } else {
      EvalJoin(op, r1.tree, r2.tree, env, d);
      StrictValue(op, x, v2);
      EvalStrict(op, r1.val, Bin(op, r1.tree, r2.tree), env, d);
      RotatesExactly(op, r1.val, x, v2);
    }
  }

  lemma {:induction false} StrictRightPending(op: BinOp, r1: Residual, r2: Residual, env: Scope, d: nat,
                                              v1: Value, v2: Value)
    requires StrictNode(op, r1, r2, env, d, v1, v2) && !SameOp(op, r1) && SameOp(op, r2)
    ensures StrictExact(op, r1, r2, env, d, v1, v2)
  {
    hide DoOperation;
    hide Strict;
    hide Regroups;
    var y := ValueIn(r2.tree, env, d);
    EvalStrict(op, r2.val, r2.tree, env, d);
    StrictValue(op, v1, v2);
    SpelledCommutes(op, v1, v2);
    if r1.Val? {
      StrictValue(op, v1, r2.val);
      SpelledCommutes(op, v1, r2.val);
      EvalStrict(op, Strict(op, v1, r2.val), r2.tree, env, d);
      SwapsExactly(op, r2.val, y, v1);
    } else {
      EvalJoin(op, r1.tree, r2.tree, env, d);
      StrictValue(op, v1, y);
      SpelledCommutes(op, v1, y);
      EvalStrict(op, r2.val, Bin(op, r1.tree, r2.tree), env, d);
      RotatesExactly(op, r2.val, y, v1);
    }
  }

  /** A strict node keeps its meaning if and only if `StrictFits`. */
  lemma {:induction false} CombineStrict(op: BinOp, r1: Residual, r2: Residual, env: Scope, d: nat,
                                         v1: Value, v2: Value)
    requires StrictNode(op, r1, r2, env, d, v1, v2)
    ensures Eval(AsTree(Combine(op, r1, r2)), env, d) == Some(DoOperation(op, v1, v2))
       <==> StrictFits(op, r1, r2, env, d, v1, v2)
  {
    hide DoOperation;
    if SameOp(op, r1) && SameOp(op, r2) {
      StrictBothPending(op, r1, r2, env, d, v1, v2);
    } else if SameOp(op, r1) {
      StrictLeftPending(op, r1, r2, env, d, v1, v2);
    } else if SameOp(op, r2) {
      StrictRightPending(op, r1, r2, env, d, v1, v2);
    } else {
      StrictCommutes(op, v1, v2);
    }
  }

  /** What is known of a logical node when its left operand, and its right if needed, are evaluated. */
  ghost predicate LogicalNode(op: BinOp, r1: Residual, r2: Residual, env: Scope, d: nat, v1: Value, v2: Option<Value>) {
    && IsLogical(op) && !Mixed(op, r1, r2)
    && WellPending(r1) && WellPending(r2)
    && Eval(AsTree(r1), env, d) == Some(v1)
    && (!ShortCircuits(op, v1) ==> v2.Some? && Eval(AsTree(r2), env, d) == v2)
  }

  /** Flattening the node keeps its meaning exactly when its conditions hold. */
  ghost predicate NodeExact(op: BinOp, r1: Residual, r2: Residual, env: Scope, d: nat, v1: Value, v2: Option<Value>) {
    Eval(AsTree(Combine(op, r1, r2)), env, d) == Result(op, v1, v2) <==> LogicalFits(op, r1, r2, v1)
  }

  lemma {:induction false} CombineBothPending(op: BinOp, r1: Residual, r2: Residual, env: Scope, d: nat,
                                              v1: Value, v2: Option<Value>)
    requires LogicalNode(op, r1, r2, env, d, v1, v2) && SameOp(op, r1) && SameOp(op, r2)
    ensures NodeExact(op, r1, r2, env, d, v1, v2)
  {
    EvalPending(op, r1.val, r1.tree, env, d);
    EvalPending(op, r2.val, r2.tree, env, d);
    var x, w := Eval(r1.tree, env, d).value, DoOperation(op, r1.val, r2.val);
    EvalJoin(op, r1.tree, r2.tree, env, d);
    if !Truth(r1.val) {
      ErrorLeft(op, r1.val, x);
      ErrorLeft(op, r1.val, r2.val);
      PendingError(op, Bin(op, r1.tree, r2.tree), env, d);
      ErrorLeft(op, v1, v2.value);
    } else if !Truth(r2.val) {
      NeutralCommutes(op, r1.val, x);
      ErrorRight(op, r1.val, r2.val);
      PendingError(op, Bin(op, r1.tree, r2.tree), env, d);
      if !ShortCircuits(op, v1) {
        ErrorLeft(op, r2.val, Eval(r2.tree, env, d).value);
        ErrorRight(op, v1, v2.value);
      }
    } else {
      CombineBothTruths(op, r1, r2, env, d, v1, v2);
    }
    hide DoOperation;
  }

  /** A pending error makes the whole an error. */
  lemma {:induction false} PendingError(op: BinOp, t: Expr, env: Scope, d: nat)
    requires IsLogical(op) && Eval(t, env, d).Some?
    ensures Eval(Bin(op, Lit(Error), t), env, d) == Some(Error)
  {
    EvalPending(op, Error, t, env, d);
    ErrorLeft(op, Error, Eval(t, env, d).value);
  }

  lemma {:induction false} CombineBothTruths(op: BinOp, r1: Residual, r2: Residual, env: Scope, d: nat,
                                             v1: Value, v2: Option<Value>)
    requires LogicalNode(op, r1, r2, env, d, v1, v2) && SameOp(op, r1) && SameOp(op, r2)
    requires Truth(r1.val) && Truth(r2.val)
    ensures Eval(AsTree(Combine(op, r1, r2)), env, d) == Result(op, v1, v2)
  {
    EvalPending(op, r1.val, r1.tree, env, d);
    EvalPending(op, r2.val, r2.tree, env, d);
    var x, w := Eval(r1.tree, env, d).value, DoOperation(op, r1.val, r2.val);
    EvalJoin(op, r1.tree, r2.tree, env, d);
    EvalPending(op, w, Bin(op, r1.tree, r2.tree), env, d);
    NeutralJoins(op, r1.val, r2.val);
    NeutralCommutes(op, r1.val, x);
    NeutralCommutes(op, w, x);
    if !ShortCircuits(op, x) {
      var y := Eval(r2.tree, env, d).value;
      NeutralAssociates(op, r1.val, x, Combined(op, r2.val, y));
      NeutralPasses(op, r2.val, x, y);
      NeutralAssociates(op, r1.val, r2.val, Combined(op, x, y));
    }
  }

  lemma {:induction false} CombineLeftPending(op: BinOp, r1: Residual, r2: Residual, env: Scope, d: nat,
                                              v1: Value, v2: Option<Value>)
    requires LogicalNode(op, r1, r2, env, d, v1, v2) && SameOp(op, r1) && r2.Tree?
    ensures NodeExact(op, r1, r2, env, d, v1, v2)
  {
    EvalPending(op, r1.val, r1.tree, env, d);
    var x := Eval(r1.tree, env, d).value;
    EvalJoin(op, r1.tree, r2.tree, env, d);
    EvalPending(op, r1.val, Bin(op, r1.tree, r2.tree), env, d);
    if !Truth(r1.val) {
      ErrorLeft(op, r1.val, x);
      ErrorLeft(op, v1, v2.value);
      ErrorLeft(op, r1.val, Eval(Bin(op, r1.tree, r2.tree), env, d).value);
    } else {
      NeutralCommutes(op, r1.val, x);
      if !ShortCircuits(op, x) { NeutralAssociates(op, r1.val, x, v2.value); }
    }
    hide DoOperation;
  }

  lemma {:induction false} CombineLeftPendingValue(op: BinOp, r1: Residual, r2: Residual, env: Scope, d: nat,
                                                   v1: Value, v2: Option<Value>)
    requires LogicalNode(op, r1, r2, env, d, v1, v2) && SameOp(op, r1) && r2.Val? && !ShortCircuits(op, r2.val)
    ensures NodeExact(op, r1, r2, env, d, v1, v2)
  {
    EvalPending(op, r1.val, r1.tree, env, d);
    var x := Eval(r1.tree, env, d).value;
    SettledBy(op, r2.val);
    if !Truth(r1.val) {
      ErrorLeft(op, r1.val, x);
      ErrorLeft(op, r1.val, r2.val);
      PendingError(op, r1.tree, env, d);
      ErrorLeft(op, v1, v2.value);
    } else if !Truth(r2.val) {
      ErrorRight(op, r1.val, r2.val);
      PendingError(op, r1.tree, env, d);
      if !ShortCircuits(op, v1) { ErrorRight(op, v1, r2.val); }
    } else {
      NeutralCommutes(op, r1.val, x);
      NeutralJoins(op, r1.val, r2.val);
      EvalPending(op, DoOperation(op, r1.val, r2.val), r1.tree, env, d);
      NeutralCommutes(op, r2.val, x);
      NeutralCommutes(op, DoOperation(op, r1.val, r2.val), x);
      NeutralAssociates(op, r1.val, x, r2.val);
      NeutralAssociates(op, r1.val, r2.val, x);
    }
    hide DoOperation;
  }

  lemma {:induction false} CombineValueRightPending(op: BinOp, r1: Residual, r2: Residual, env: Scope, d: nat,
                                                    v1: Value, v2: Option<Value>)
    requires LogicalNode(op, r1, r2, env, d, v1, v2) && r1.Val? && SameOp(op, r2)
    ensures NodeExact(op, r1, r2, env, d, v1, v2)
  {
    EvalPending(op, r2.val, r2.tree, env, d);
    SettledBy(op, r1.val);
    if !ShortCircuits(op, v1) {
      var y := Eval(r2.tree, env, d).value;
      if !Truth(v1) {
        ErrorLeft(op, v1, v2.value);
        ErrorLeft(op, v1, r2.val);
        PendingError(op, r2.tree, env, d);
      } else if !Truth(r2.val) {
        ErrorLeft(op, r2.val, y);
        ErrorRight(op, v1, r2.val);
        ErrorRight(op, v1, Error);
        PendingError(op, r2.tree, env, d);
      } else {
        NeutralJoins(op, r1.val, r2.val);
        EvalPending(op, DoOperation(op, r1.val, r2.val), r2.tree, env, d);
        NeutralAssociates(op, r1.val, r2.val, y);
      }
    }
    hide DoOperation;
  }

  lemma {:induction false} CombineTreeRightPending(op: BinOp, r1: Residual, r2: Residual, env: Scope, d: nat,
                                                   v1: Value, v2: Option<Value>)
    requires LogicalNode(op, r1, r2, env, d, v1, v2) && r1.Tree? && SameOp(op, r2)
    ensures NodeExact(op, r1, r2, env, d, v1, v2)
  {
    EvalPending(op, r2.val, r2.tree, env, d);
    EvalJoin(op, r1.tree, r2.tree, env, d);
    EvalPending(op, r2.val, Bin(op, r1.tree, r2.tree), env, d);
    if !Truth(r2.val) {
      ErrorLeft(op, r2.val, Eval(Bin(op, r1.tree, r2.tree), env, d).value);
      if !ShortCircuits(op, v1) {
        ErrorLeft(op, r2.val, Eval(r2.tree, env, d).value);
        ErrorRight(op, v1, Error);
      }
    } else if ShortCircuits(op, v1) {
      NeutralCommutes(op, r2.val, v1);
    } else {
      NeutralPasses(op, r2.val, v1, Eval(r2.tree, env, d).value);
    }
    hide DoOperation;
  }

  /** What the don't-care test makes of one known operand. */
  lemma {:induction false} SettledBy(op: BinOp, v: Value)
    requires IsLogical(op)
    ensures DoOperation(op, v, Undefined).Bool? <==> ShortCircuits(op, v)
    ensures DoOperation(op, Undefined, v).Bool? <==> ShortCircuits(op, v)
    ensures ShortCircuits(op, v) ==> DoOperation(op, v, Undefined) == v == DoOperation(op, Undefined, v)
    ensures DoOperation(op, Undefined, Undefined) == Undefined
  {
  }

  lemma {:induction false} CombineDropsLeft(op: BinOp, r1: Residual, r2: Residual, env: Scope, d: nat,
                                            v1: Value, v2: Option<Value>)
    requires LogicalNode(op, r1, r2, env, d, v1, v2) && DropsLeft(op, r1, r2)
    ensures NodeExact(op, r1, r2, env, d, v1, v2)
  {
    SettledBy(op, r2.val);
    if !Truth(v1) {
      ErrorLeft(op, v1, r2.val);
    } else if !ShortCircuits(op, v1) {
      NeutralCommutes(op, v1, r2.val);
    }
    hide DoOperation;
  }

  lemma {:induction false} CombineTwoValues(op: BinOp, v1: Value, v2: Value)
    requires IsLogical(op)
    ensures Combine(op, Val(v1), Val(v2)) == Val(DoOperation(op, v1, v2))
    ensures ShortCircuits(op, v1) ==> (DoOperation(op, v1, v2) == v1 <==> !v2.Int? && !v2.Str?)
  {
    hide Bits;
    hide Wrap;
  }

  lemma {:induction false} CombineNoPending(op: BinOp, r1: Residual, r2: Residual, env: Scope, d: nat,
                                            v1: Value, v2: Option<Value>)
    requires LogicalNode(op, r1, r2, env, d, v1, v2)
    requires !SameOp(op, r1) && !SameOp(op, r2) && !DropsLeft(op, r1, r2)
    ensures NodeExact(op, r1, r2, env, d, v1, v2)
  {
    if r1.Val? && r2.Val? {
      CombineTwoValues(op, r1.val, r2.val);
      hide Combine;
    } else if r1.Val? {
      SettledBy(op, r1.val);
      EvalJoin(op, Lit(v1), AsTree(r2), env, d);
    } else if r2.Val? {
      SettledBy(op, r2.val);
      EvalJoin(op, AsTree(r1), AsTree(r2), env, d);
      if r1.Tree? { CombineTreeValue(op, r1.tree, r2.val, env, d, v1); }
    } else {
      SettledBy(op, Undefined);
      EvalJoin(op, AsTree(r1), AsTree(r2), env, d);
    }
    hide DoOperation;
  }

  /** A known right operand is put in front of the left one. */
  lemma {:induction false} CombineTreeValue(op: BinOp, t: Expr, v: Value, env: Scope, d: nat, v1: Value)
    requires IsLogical(op) && !ShortCircuits(op, v) && Eval(t, env, d) == Some(v1)
    ensures Eval(Bin(op, Lit(v), t), env, d) == Some(Combined(op, v1, v)) <==> (ShortCircuits(op, v1) ==> Truth(v))
  {
    EvalPending(op, v, t, env, d);
    if !Truth(v) {
      ErrorLeft(op, v, v1);
      if !ShortCircuits(op, v1) { ErrorRight(op, v1, v); }
    } else {
      NeutralCommutes(op, v, v1);
    }
  }

  lemma {:induction false} CombinePendsOnItself(op: BinOp, r1: Residual, r2: Residual)
    ensures Combine(op, r1, r2).Pending? ==> Combine(op, r1, r2).op == op
  {
    hide DoOperation;
  }

  /** A logical node keeps its meaning if and only if `LogicalFits`. */
  lemma {:induction false} CombineLogical(op: BinOp, r1: Residual, r2: Residual, env: Scope, d: nat,
                                          v1: Value, v2: Option<Value>)
    requires LogicalNode(op, r1, r2, env, d, v1, v2)
    ensures Eval(AsTree(Combine(op, r1, r2)), env, d) == Result(op, v1, v2) <==> LogicalFits(op, r1, r2, v1)
  {
    hide Combine;
    hide DoOperation;
    hide LogicalFits;
    hide Result;
    hide WellPending;
    hide Eval;
    hide AsTree;
    if DropsLeft(op, r1, r2) {
      CombineDropsLeft(op, r1, r2, env, d, v1, v2);
    } else if SameOp(op, r1) && SameOp(op, r2) {
      CombineBothPending(op, r1, r2, env, d, v1, v2);
    } else if SameOp(op, r1) && r2.Tree? {
      CombineLeftPending(op, r1, r2, env, d, v1, v2);
    } else if SameOp(op, r1) {
      CombineLeftPendingValue(op, r1, r2, env, d, v1, v2);
    } else if SameOp(op, r2) && r1.Val? {
      CombineValueRightPending(op, r1, r2, env, d, v1, v2);
    } else if SameOp(op, r2) {
      CombineTreeRightPending(op, r1, r2, env, d, v1, v2);
    } else {
      CombineNoPending(op, r1, r2, env, d, v1, v2);
    }
  }

  // ---------- the mixed shape ----------

  /** What a mixed node keeps, and what it should have meant. */
  lemma {:induction false} MixedMeans(op: BinOp, r1: Residual, r2: Residual, env: Scope, d: nat)
    requires IsCommutative(op) && Mixed(op, r1, r2) && WellPending(r1) && WellPending(r2)
    requires Eval(r1.tree, env, d).Some? && Eval(r2.tree, env, d).Some?
    ensures var x, y := Eval(r1.tree, env, d).value, Eval(r2.tree, env, d).value;
      && Eval(AsTree(Combine(op, r1, r2)), env, d) ==
           Some(if SameOp(op, r1) then Kept(op, r1.val, false, x, y) else Kept(op, r2.val, true, y, x))
      && Eval(AsTree(r1), env, d) == Some(Combined(r1.op, r1.val, x))
      && Eval(AsTree(r2), env, d) == Some(Combined(r2.op, r2.val, y))
      && Eval(Bin(op, AsTree(r1), AsTree(r2)), env, d) ==
           Some(if SameOp(op, r1) then Original(op, r1.val, r2.op, r2.val, false, x, y)
                else Original(op, r2.val, r1.op, r1.val, true, y, x))
  {
    MixedCombines(op, r1, r2);
    hide Combine;
    hide DoOperation;
    EvalPending(r1.op, r1.val, r1.tree, env, d);
    EvalPending(r2.op, r2.val, r2.tree, env, d);
    EvalJoin(op, AsTree(r1), AsTree(r2), env, d);
    EvalJoin(op, r1.tree, r2.tree, env, d);
    EvalPending(op, if SameOp(op, r1) then r1.val else r2.val, Bin(op, r1.tree, r2.tree), env, d);
  }

  /** The mixed shape drops the value and the operator of the child that pends on another one. */
  lemma {:induction false} MixedCombines(op: BinOp, r1: Residual, r2: Residual)
    requires Mixed(op, r1, r2)
    ensures Combine(op, r1, r2) ==
      Pending(op, if SameOp(op, r1) then r1.val else r2.val, Bin(op, r1.tree, r2.tree))
  {
    hide DoOperation;
  }

  lemma {:induction false} CombineMixed(op: BinOp, r1: Residual, r2: Residual, env: Scope, d: nat)
    requires IsCommutative(op) && Mixed(op, r1, r2) && WellPending(r1) && WellPending(r2)
    requires MixedFits(op, r1, r2, env, d)
    ensures Eval(AsTree(Combine(op, r1, r2)), env, d) == Eval(Bin(op, AsTree(r1), AsTree(r2)), env, d)
    ensures Eval(Bin(op, AsTree(r1), AsTree(r2)), env, d).Some?
    ensures Eval(AsTree(r1), env, d).Some?
  {
    hide Harmless;
    hide Operand;
    hide Original;
    hide Kept;
    hide Combine;
    MixedMeans(op, r1, r2, env, d);
    var x, y := Eval(r1.tree, env, d).value, Eval(r2.tree, env, d).value;
    if SameOp(op, r1) {
      HarmlessKeeps(op, r1.val, r2.op, r2.val, false, x, y);
    } else {
      HarmlessKeeps(op, r2.val, r1.op, r1.val, true, y, x);
    }
  }

  /** A commutative node that meets its conditions keeps its meaning. */
  lemma {:induction false} CombineNode(op: BinOp, r1: Residual, r2: Residual, env: Scope, d: nat,
                                       v1: Value, v2: Option<Value>)
    requires IsCommutative(op) && NodeFits(op, r1, r2, env, d, v1, v2)
    requires WellPending(r1) && WellPending(r2)
    requires Eval(AsTree(r1), env, d) == Some(v1)
    requires !ShortCircuits(op, v1) ==> v2.Some? && Eval(AsTree(r2), env, d) == v2
    ensures Eval(AsTree(Combine(op, r1, r2)), env, d) == Result(op, v1, v2)
  {
    hide Combine;
    hide DoOperation;
    hide MixedFits;
    hide LogicalFits;
    hide StrictFits;
    if Mixed(op, r1, r2) {
      CombineMixed(op, r1, r2, env, d);
      EvalJoin(op, AsTree(r1), AsTree(r2), env, d);
    } else if IsLogical(op) {
      CombineLogical(op, r1, r2, env, d, v1, v2);
    } else {
      CombineStrict(op, r1, r2, env, d, v1, v2.value);
    }
  }

  // ---------- soundness of the whole ----------

  lemma {:induction false} EvalDeeper(e: Expr, env: Scope, d: nat)
    requires Eval(e, env, d).Some?
    ensures Eval(e, env, d + 1) == Eval(e, env, d)
    decreases d, e
  {
    match e
    case Lit(_) =>
    case Ref(name) => if name in env { EvalDeeper(env[name], env, d - 1); }
    case Paren(e1) => EvalDeeper(e1, env, d);
    case Un(_, e1) => EvalDeeper(e1, env, d);
    case Bin(op, l, r) =>
      EvalDeeper(l, env, d);
      if !ShortCircuits(op, Eval(l, env, d).value) { EvalDeeper(r, env, d); }
    case Cond(c, t, f) =>
      EvalDeeper(c, env, d);
      var v := Eval(c, env, d).value;
      if v != Bool(false) { EvalDeeper(t, env, d); }
      if v != Bool(true) { EvalDeeper(f, env, d); }
  }

  /**
   Flattening preserves meaning: whenever flattening succeeds in `scope` and
   the original evaluates in an environment that extends `scope`, the residual
   evaluates there to the same value.
   */
  lemma {:induction false} FlattenPreservesMeaning(e: Expr, scope: Scope, env: Scope, d: nat, inline: bool)
    requires Extends(scope, env)
    requires Flattenable(e, scope, env, d, inline)
    requires Flat(e, scope, d, inline).Some? && Eval(e, env, d).Some?
    ensures Eval(AsTree(Flat(e, scope, d, inline).value), env, d) == Eval(e, env, d)
    decreases d, e
  {
    hide DoOperation;
    hide DoUnary;
    hide Combine;
    hide NodeFits;
    match e
    case Lit(_) =>
    case Ref(name) =>
      if name in scope {
        FlattenPreservesMeaning(scope[name], scope, env, d - 1, inline);
        EvalDeeper(AsTree(Flat(scope[name], scope, d - 1, inline).value), env, d - 1);
      }
    case Paren(e1) => FlattenPreservesMeaning(e1, scope, env, d, inline);
    case Un(_, e1) => FlattenPreservesMeaning(e1, scope, env, d, inline);
    case Bin(op, l, r) =>
      var r1, r2 := Flat(l, scope, d, inline).value, Flat(r, scope, d, inline).value;
      var v1 := Eval(l, env, d).value;
      FlattenPreservesMeaning(l, scope, env, d, inline);
      if !ShortCircuits(op, v1) { FlattenPreservesMeaning(r, scope, env, d, inline); }
      if IsCommutative(op) {
        FlatWellPending(l, scope, d, inline);
        FlatWellPending(r, scope, d, inline);
        var v2 := if ShortCircuits(op, v1) then None else Eval(r, env, d);
        CombineNode(op, r1, r2, env, d, v1, v2);
      }
    case Cond(c, t, f) =>
      FlattenPreservesMeaning(c, scope, env, d, inline);
      var v := Eval(c, env, d).value;
      if v != Bool(false) && Flat(t, scope, d, inline).Some? { FlattenPreservesMeaning(t, scope, env, d, inline); }
      if v != Bool(true) && Flat(f, scope, d, inline).Some? { FlattenPreservesMeaning(f, scope, env, d, inline); }
  }

  // ---------- the boundary is exact ----------

  const OnePlusX: Expr := Bin(Add, Lit(Int(1)), Ref("x"))
  const TwiceY: Expr := Bin(Mul, Lit(Int(2)), Ref("y"))
  const TenAndFive: Scope := map["x" := Lit(Int(10)), "y" := Lit(Int(5))]

  /** `1 + x + 2 * y` is flattened to `1 + (x + y)`... */
  lemma {:induction false} MixedSumFlattened()
    ensures Flat(Bin(Add, OnePlusX, TwiceY), map[], 1, false) ==
      Some(Pending(Add, Int(1), Bin(Add, Ref("x"), Ref("y"))))
  {
    assert Flat(OnePlusX, map[], 1, false) == Some(Pending(Add, Int(1), Ref("x")));
    assert Flat(TwiceY, map[], 1, false) == Some(Pending(Mul, Int(2), Ref("y")));
  }

  /** ... which is a different number. */
  lemma {:induction false} MixedSumValues()
    ensures Eval(Bin(Add, OnePlusX, TwiceY), TenAndFive, 1) == Some(Int(21))
    ensures Eval(AsTree(Pending(Add, Int(1), Bin(Add, Ref("x"), Ref("y")))), TenAndFive, 1) == Some(Int(16))
  {
    SumOf(Int(1), Int(10));
    SumOf(Int(11), Int(10));
    SumOf(Int(10), Int(5));
    SumOf(Int(1), Int(15));
    assert DoOperation(Mul, Int(2), Int(5)) == Int(10);
    hide DoOperation;
    var x, y := Ref("x"), Ref("y");
    assert Eval(x, TenAndFive, 1) == Some(Int(10));
    assert Eval(y, TenAndFive, 1) == Some(Int(5));
    EvalJoin(Add, Lit(Int(1)), x, TenAndFive, 1);
    EvalJoin(Mul, Lit(Int(2)), y, TenAndFive, 1);
    EvalJoin(Add, x, y, TenAndFive, 1);
    EvalJoin(Add, OnePlusX, TwiceY, TenAndFive, 1);
    EvalJoin(Add, Lit(Int(1)), Bin(Add, x, y), TenAndFive, 1);
  }

  lemma {:induction false} SumOf(a: Value, b: Value)
    requires a.Int? && b.Int? && 0 <= a.i < 100 && 0 <= b.i < 100
    ensures DoOperation(Add, a, b) == Int(a.i + b.i)
  {
  }

  /** The mixed node made of `v1 op t1` and `v2 op2 t2`, in either order, means what its operands mean. */
  ghost predicate MixedKeeps(op: BinOp, v1: Value, op2: BinOp, v2: Value, mirrored: bool,
                             t1: Expr, t2: Expr, env: Scope, d: nat) {
    var r1, r2 := Pending(op, v1, t1), Pending(op2, v2, t2);
    if mirrored then Eval(AsTree(Combine(op, r2, r1)), env, d) == Eval(Bin(op, AsTree(r2), AsTree(r1)), env, d)
    else Eval(AsTree(Combine(op, r1, r2)), env, d) == Eval(Bin(op, AsTree(r1), AsTree(r2)), env, d)
  }

  lemma {:induction false} MixedKeepsValues(op: BinOp, v1: Value, op2: BinOp, v2: Value, mirrored: bool,
                         t1: Expr, t2: Expr, env: Scope, d: nat)
    requires IsMixed(op, v1, op2, v2)
    requires Eval(t1, env, d).Some? && Eval(t2, env, d).Some?
    ensures MixedKeeps(op, v1, op2, v2, mirrored, t1, t2, env, d)
       <==> Keeps(op, v1, op2, v2, mirrored, Eval(t1, env, d).value, Eval(t2, env, d).value)
  {
    hide Combine;
    hide Original;
    hide Kept;
    var r1, r2 := Pending(op, v1, t1), Pending(op2, v2, t2);
    if mirrored {
      MixedMeans(op, r2, r1, env, d);
    } else {
      MixedMeans(op, r1, r2, env, d);
    }
  }

  /** Over every pair of operands and in both orders, the mixed shape keeps its meaning exactly when it is harmless. */
  lemma {:induction false} MixedExactly(op: BinOp, v1: Value, op2: BinOp, v2: Value, mirrored: bool)
    requires IsMixed(op, v1, op2, v2)
    ensures (forall t1, t2, env, d :: OperandIn(op, t1, env, d) && OperandIn(op2, t2, env, d) ==>
               MixedKeeps(op, v1, op2, v2, mirrored, t1, t2, env, d))
       <==> Harmless(op, v1, op2, v2, mirrored)
  {
    hide MixedKeeps;
    hide Harmless;
    hide Keeps;
    hide Operand;
    if Harmless(op, v1, op2, v2, mirrored) {
      forall t1, t2, env, d | OperandIn(op, t1, env, d) && OperandIn(op2, t2, env, d)
        ensures MixedKeeps(op, v1, op2, v2, mirrored, t1, t2, env, d)
      {
        MixedKeepsValues(op, v1, op2, v2, mirrored, t1, t2, env, d);
        HarmlessKeeps(op, v1, op2, v2, mirrored, Eval(t1, env, d).value, Eval(t2, env, d).value);
      }
    } else {
      var x, y := HarmfulLoses(op, v1, op2, v2, mirrored);
      var t1, t2, env: Scope := Lit(x), Lit(y), map[];
      assert Eval(t1, env, 0) == Some(x) && Eval(t2, env, 0) == Some(y);
      MixedKeepsValues(op, v1, op2, v2, mirrored, t1, t2, env, 0);
      assert OperandIn(op, t1, env, 0) && OperandIn(op2, t2, env, 0);
    }
  }

  // ---------- conditions that can be read off the expression ----------

  /** Exactly one of two commutative operands has the parent's operator. */
  predicate StaticMixed(op: BinOp, l: Expr, r: Expr) {
    l.Bin? && r.Bin? && IsCommutative(l.op) && IsCommutative(r.op) && (l.op == op) != (r.op == op)
  }

  /** No node of the expression is of that shape. */
  predicate Unmixed(e: Expr) {
    match e
    case Lit(_) => true
    case Ref(_) => true
    case Paren(e1) => Unmixed(e1)
    case Un(_, e1) => Unmixed(e1)
    case Bin(op, l, r) => Unmixed(l) && Unmixed(r) && !StaticMixed(op, l, r)
    case Cond(c, t, f) => Unmixed(c) && Unmixed(t) && Unmixed(f)
  }

  predicate UnmixedScope(scope: Scope) {
    forall k :: k in scope ==> Unmixed(scope[k])
  }

  /** Every commutative operator that is reached has operands that evaluate to what it is meant to take. */
  ghost predicate OperandsFit(e: Expr, scope: Scope, env: Scope, d: nat)
    decreases d, e
  {
    match e
    case Lit(_) => true
    case Ref(name) => name in scope && d > 0 ==> OperandsFit(scope[name], scope, env, d - 1)
    case Paren(e1) => OperandsFit(e1, scope, env, d)
    case Un(_, e1) => OperandsFit(e1, scope, env, d)
    case Bin(op, l, r) =>
      && OperandsFit(l, scope, env, d) && OperandsFit(r, scope, env, d)
      && (IsCommutative(op) ==> OperandIn(op, l, env, d) && OperandIn(op, r, env, d))
    case Cond(c, t, f) =>
      OperandsFit(c, scope, env, d) && OperandsFit(t, scope, env, d) && OperandsFit(f, scope, env, d)
  }

  lemma {:induction false} PendsOnOwnOperator(e: Expr, scope: Scope, d: nat, inline: bool)
    requires Flat(e, scope, d, inline).Some? && Flat(e, scope, d, inline).value.Pending?
    ensures e.Bin? && IsCommutative(e.op) && Flat(e, scope, d, inline).value.op == e.op
  {
    hide Combine;
    if e.Bin? && IsCommutative(e.op) {
      CombinePendsOnItself(e.op, Flat(e.l, scope, d, inline).value, Flat(e.r, scope, d, inline).value);
    }
  }

  /** Without flattening: a node that does not look mixed is not. */
  lemma {:induction false} StaticallyUnmixed(op: BinOp, l: Expr, r: Expr, scope: Scope, d: nat, inline: bool)
    requires Flat(l, scope, d, inline).Some? && Flat(r, scope, d, inline).Some?
    requires !StaticMixed(op, l, r)
    ensures !Mixed(op, Flat(l, scope, d, inline).value, Flat(r, scope, d, inline).value)
  {
    hide Flat;
    if Flat(l, scope, d, inline).value.Pending? && Flat(r, scope, d, inline).value.Pending? {
      PendsOnOwnOperator(l, scope, d, inline);
      PendsOnOwnOperator(r, scope, d, inline);
    }
  }

  /** A strict pending triple is made of operands over which its operator is associative. */
  ghost predicate PendingFits(r: Residual, env: Scope, d: nat) {
    r.Pending? && !IsLogical(r.op) ==>
      Fits(r.op, r.val) && Eval(r.tree, env, d).Some? && Fits(r.op, Eval(r.tree, env, d).value)
  }

  lemma {:induction false} TruthsFitNode(op: BinOp, r1: Residual, r2: Residual, env: Scope, d: nat,
                                         v1: Value, v2: Value)
    requires IsLogical(op) && WellPending(r2) && Eval(AsTree(r2), env, d) == Some(v2)
    requires Truth(v1) && Truth(v2)
    ensures LogicalFits(op, r1, r2, v1)
  {
    hide DoOperation;
    if SameOp(op, r2) && !Truth(r2.val) {
      EvalPending(op, r2.val, r2.tree, env, d);
      ErrorLeft(op, r2.val, Eval(r2.tree, env, d).value);
    }
  }

  lemma {:induction false} NumbersFitNode(op: BinOp, r1: Residual, r2: Residual, env: Scope, d: nat,
                                          v1: Value, v2: Value)
    requires IsCommutative(op) && !IsLogical(op)
    requires Fits(op, v1) && Fits(op, v2) && PendingFits(r1, env, d) && PendingFits(r2, env, d)
    ensures StrictFits(op, r1, r2, env, d, v1, v2)
  {
    hide Fits;
    hide Eval;
  }

  /** The conditions on a node that is not mixed. */
  lemma {:induction false} UnmixedNode(op: BinOp, r1: Residual, r2: Residual, env: Scope, d: nat,
                                       v1: Value, v2: Option<Value>)
    requires !Mixed(op, r1, r2)
    ensures NodeFits(op, r1, r2, env, d, v1, v2) ==
      if IsLogical(op) then LogicalFits(op, r1, r2, v1)
      else v2.Some? ==> StrictFits(op, r1, r2, env, d, v1, v2.value)
  {
    hide MixedFits;
    hide LogicalFits;
    hide StrictFits;
  }

  /** Operands of the right kind meet the conditions on a node that is not mixed. */
  lemma {:induction false} OperandsFitNode(op: BinOp, r1: Residual, r2: Residual, env: Scope, d: nat,
                                           v1: Value, v2: Value)
    requires IsCommutative(op) && !Mixed(op, r1, r2) && WellPending(r2)
    requires Eval(AsTree(r2), env, d) == Some(v2)
    requires Operand(op, v1) && Operand(op, v2) && PendingFits(r1, env, d) && PendingFits(r2, env, d)
    ensures NodeFits(op, r1, r2, env, d, v1, None) && NodeFits(op, r1, r2, env, d, v1, Some(v2))
  {
    UnmixedNode(op, r1, r2, env, d, v1, None);
    UnmixedNode(op, r1, r2, env, d, v1, Some(v2));
    hide NodeFits;
    hide LogicalFits;
    hide StrictFits;
    hide Mixed;
    hide Fits;
    hide WellPending;
    hide PendingFits;
    hide AsTree;
    hide Eval;
    if IsLogical(op) {
      TruthsFitNode(op, r1, r2, env, d, v1, v2);
    } else {
      NumbersFitNode(op, r1, r2, env, d, v1, v2);
    }
  }

  lemma {:induction false} CombinePendingFits(op: BinOp, r1: Residual, r2: Residual, env: Scope, d: nat,
                                              v1: Value, v2: Value)
    requires StrictNode(op, r1, r2, env, d, v1, v2)
    requires Fits(op, v1) && Fits(op, v2) && PendingFits(r1, env, d) && PendingFits(r2, env, d)
    ensures PendingFits(Combine(op, r1, r2), env, d)
  {
    hide DoOperation;
    hide Fits;
    var r := Combine(op, r1, r2);
    if r1.Val? || SameOp(op, r1) {
      if r2.Val? || SameOp(op, r2) { ResultFits(op, r1.val, r2.val); }
    }
    if r.Pending? && !r1.Val? && !r2.Val? {
      EvalJoin(op, r1.tree, r2.tree, env, d);
      ResultFits(op, ValueIn(r1.tree, env, d), ValueIn(r2.tree, env, d));
    }
  }

  lemma {:induction false} NotPendingFits(e: Expr, scope: Scope, env: Scope, d: nat, inline: bool)
    ensures Flat(e, scope, d, inline).Some? && (e.Bin? ==> !IsCommutative(e.op) || IsLogical(e.op)) ==>
      PendingFits(Flat(e, scope, d, inline).value, env, d)
  {
    hide Flat;
    if Flat(e, scope, d, inline).Some? && Flat(e, scope, d, inline).value.Pending? {
      PendsOnOwnOperator(e, scope, d, inline);
    }
  }

  lemma {:induction false} FlatCombines(op: BinOp, l: Expr, r: Expr, scope: Scope, d: nat, inline: bool)
    requires IsCommutative(op)
    ensures var o1, o2 := Flat(l, scope, d, inline), Flat(r, scope, d, inline);
      Flat(Bin(op, l, r), scope, d, inline) ==
        if o1.None? || o2.None? then None else Some(Combine(op, o1.value, o2.value))
  {
  }

  lemma {:induction false} OperandsFitFlattenable(e: Expr, scope: Scope, env: Scope, d: nat, inline: bool)
    requires Extends(scope, env) && UnmixedScope(scope) && Unmixed(e)
    requires OperandsFit(e, scope, env, d)
    ensures Flattenable(e, scope, env, d, inline)
    ensures Flat(e, scope, d, inline).Some? ==> PendingFits(Flat(e, scope, d, inline).value, env, d)
    decreases d, e
  {
    hide NodeFits;
    hide Flat;
    hide Combine;
    hide PendingFits;
    hide DoOperation;
    NotPendingFits(e, scope, env, d, inline);
    match e
    case Lit(_) =>
    case Ref(name) => if name in scope && d > 0 { OperandsFitFlattenable(scope[name], scope, env, d - 1, inline); }
    case Paren(e1) => OperandsFitFlattenable(e1, scope, env, d, inline);
    case Un(_, e1) => OperandsFitFlattenable(e1, scope, env, d, inline);
    case Bin(op, l, r) =>
      OperandsFitFlattenable(l, scope, env, d, inline);
      OperandsFitFlattenable(r, scope, env, d, inline);
      var o1, o2 := Flat(l, scope, d, inline), Flat(r, scope, d, inline);
      if IsCommutative(op) { FlatCombines(op, l, r, scope, d, inline); }
      if IsCommutative(op) && o1.Some? && o2.Some? {
        StaticallyUnmixed(op, l, r, scope, d, inline);
        FlatWellPending(r, scope, d, inline);
        FlattenPreservesMeaning(l, scope, env, d, inline);
        FlattenPreservesMeaning(r, scope, env, d, inline);
        var v1, v2 := Eval(l, env, d).value, Eval(r, env, d).value;
        OperandsFitNode(op, o1.value, o2.value, env, d, v1, v2);
        if !IsLogical(op) { CombinePendingFits(op, o1.value, o2.value, env, d, v1, v2); }
      }
    case Cond(c, t, f) =>
      OperandsFitFlattenable(c, scope, env, d, inline);
      OperandsFitFlattenable(t, scope, env, d, inline);
      OperandsFitFlattenable(f, scope, env, d, inline);
  }

  /** Flattening preserves meaning under conditions that mention neither flattening nor its residuals. */
  lemma {:induction false} UnmixedPreservesMeaning(e: Expr, scope: Scope, env: Scope, d: nat, inline: bool)
    requires Extends(scope, env) && UnmixedScope(scope) && Unmixed(e)
    requires OperandsFit(e, scope, env, d)
    requires Flat(e, scope, d, inline).Some? && Eval(e, env, d).Some?
    ensures Eval(AsTree(Flat(e, scope, d, inline).value), env, d) == Eval(e, env, d)
  {
    OperandsFitFlattenable(e, scope, env, d, inline);
    FlattenPreservesMeaning(e, scope, env, d, inline);
  }

  /** Operands of the wrong type break associativity exactly when UNDEFINED meets their error. */
  lemma {:induction false} StrictAssociatesExactly(op: BinOp, x: Value, y: Value, z: Value)
    requires IsCommutative(op) && !IsLogical(op)
    ensures DoOperation(op, DoOperation(op, x, y), z) == DoOperation(op, x, DoOperation(op, y, z))
       <==> (x.Error? || y.Error? || z.Error?
             || !(|| (z.Undefined? && !x.Undefined? && !y.Undefined? && !(Fits(op, x) && Fits(op, y)))
                  || (x.Undefined? && !y.Undefined? && !z.Undefined? && !(Fits(op, y) && Fits(op, z)))))
  {
    if Fits(op, x) && Fits(op, y) && Fits(op, z) { StrictAssociates(op, x, y, z); }
  }
}
