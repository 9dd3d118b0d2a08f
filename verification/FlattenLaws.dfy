/**
 When evaluation and flattening succeed, what a reference and a conditional
 mean, and what is left of the references of a flattened expression.
 */
module FlatteningLaws {
  import opened Values
  import opened Flattening
  import L = OperatorLaws

  // ---------- success ----------

  /** Every chain of references from `e` through `defs` is at most `d` long. */
  predicate Within(e: Expr, defs: Scope, d: nat)
    decreases d, e
  {
    match e
    case Lit(_) => true
    case Ref(name) => name in defs ==> d > 0 && Within(defs[name], defs, d - 1)
    case Paren(e1) => Within(e1, defs, d)
    case Un(_, e1) => Within(e1, defs, d)
    case Bin(_, l, r) => Within(l, defs, d) && Within(r, defs, d)
    case Cond(c, t, f) => Within(c, defs, d) && Within(t, defs, d) && Within(f, defs, d)
  }

  predicate Unconditional(e: Expr) {
    match e
    case Lit(_) => true
    case Ref(_) => true
    case Paren(e1) => Unconditional(e1)
    case Un(_, e1) => Unconditional(e1)
    case Bin(_, l, r) => Unconditional(l) && Unconditional(r)
    case Cond(_, _, _) => false
  }

  predicate UnconditionalScope(defs: Scope) {
    forall k :: k in defs ==> Unconditional(defs[k])
  }

  /** Evaluation fails only on a chain of references that is too long. */
  lemma {:induction false} EvalSucceeds(e: Expr, env: Scope, d: nat)
    requires Within(e, env, d)
    ensures Eval(e, env, d).Some?
    decreases d, e
  {
    match e
    case Lit(_) =>
    case Ref(name) => if name in env { EvalSucceeds(env[name], env, d - 1); }
    case Paren(e1) => EvalSucceeds(e1, env, d);
    case Un(_, e1) => EvalSucceeds(e1, env, d);
    case Bin(_, l, r) =>
      EvalSucceeds(l, env, d);
      EvalSucceeds(r, env, d);
    case Cond(c, t, f) =>
      EvalSucceeds(c, env, d);
      EvalSucceeds(t, env, d);
      EvalSucceeds(f, env, d);
  }

  /** So does flattening. */
  lemma {:induction false} FlatSucceeds(e: Expr, scope: Scope, d: nat, inline: bool)
    requires Within(e, scope, d)
    ensures Flat(e, scope, d, inline).Some?
    decreases d, e
  {
    match e
    case Lit(_) =>
    case Ref(name) => if name in scope { FlatSucceeds(scope[name], scope, d - 1, inline); }
    case Paren(e1) => FlatSucceeds(e1, scope, d, inline);
    case Un(_, e1) => FlatSucceeds(e1, scope, d, inline);
    case Bin(_, l, r) =>
      FlatSucceeds(l, scope, d, inline);
      FlatSucceeds(r, scope, d, inline);
    case Cond(c, t, f) =>
      FlatSucceeds(c, scope, d, inline);
      FlatSucceeds(t, scope, d, inline);
      FlatSucceeds(f, scope, d, inline);
  }

  /** Without conditionals, of which an arm may be left alone, it succeeds on no other expression. */
  lemma {:induction false} FlatSucceedsExactly(e: Expr, scope: Scope, d: nat, inline: bool)
    requires Unconditional(e) && UnconditionalScope(scope)
    ensures Flat(e, scope, d, inline).Some? <==> Within(e, scope, d)
    decreases d, e
  {
    hide Combine;
    match e
    case Lit(_) =>
    case Ref(name) => if name in scope && d > 0 { FlatSucceedsExactly(scope[name], scope, d - 1, inline); }
    case Paren(e1) => FlatSucceedsExactly(e1, scope, d, inline);
    case Un(_, e1) => FlatSucceedsExactly(e1, scope, d, inline);
    case Bin(_, l, r) =>
      FlatSucceedsExactly(l, scope, d, inline);
      FlatSucceedsExactly(r, scope, d, inline);
  }

  // ---------- what flattening finishes ----------

  function References(e: Expr): set<string> {
    match e
    case Lit(_) => {}
    case Ref(name) => {name}
    case Paren(e1) => References(e1)
    case Un(_, e1) => References(e1)
    case Bin(_, l, r) => References(l) + References(r)
    case Cond(c, t, f) => References(c) + References(t) + References(f)
  }

  /** No definition mentions an attribute that the scope does not define. */
  predicate Closed(scope: Scope) {
    forall k :: k in scope ==> References(scope[k]) <= scope.Keys
  }

  /** An expression whose references are all defined, without conditionals, is flattened to a value. */
  lemma {:induction false} DefinedFlattensToValue(e: Expr, scope: Scope, d: nat, inline: bool)
    requires Unconditional(e) && UnconditionalScope(scope) && Closed(scope) && References(e) <= scope.Keys
    requires Flat(e, scope, d, inline).Some?
    ensures Flat(e, scope, d, inline).value.Val?
    decreases d, e
  {
    hide DoOperation;
    hide DoUnary;
    match e
    case Lit(_) =>
    case Ref(name) => DefinedFlattensToValue(scope[name], scope, d - 1, inline);
    case Paren(e1) => DefinedFlattensToValue(e1, scope, d, inline);
    case Un(_, e1) => DefinedFlattensToValue(e1, scope, d, inline);
    case Bin(_, l, r) =>
      DefinedFlattensToValue(l, scope, d, inline);
      DefinedFlattensToValue(r, scope, d, inline);
  }

  lemma {:induction false} CombineReferences(op: BinOp, r1: Residual, r2: Residual)
    ensures References(AsTree(Combine(op, r1, r2))) <= References(AsTree(r1)) + References(AsTree(r2))
  {
    hide DoOperation;
  }

  /** Flattening brings in no reference, unless it may inline. */
  lemma {:induction false} FlatBringsInNone(e: Expr, scope: Scope, d: nat)
    requires Flat(e, scope, d, false).Some?
    ensures References(AsTree(Flat(e, scope, d, false).value)) <= References(e)
    decreases d, e
  {
    hide DoOperation;
    hide DoUnary;
    hide Combine;
    match e
    case Lit(_) =>
    case Ref(name) =>
    case Paren(e1) => FlatBringsInNone(e1, scope, d);
    case Un(_, e1) => FlatBringsInNone(e1, scope, d);
    case Bin(op, l, r) =>
      FlatBringsInNone(l, scope, d);
      FlatBringsInNone(r, scope, d);
      CombineReferences(op, Flat(l, scope, d, false).value, Flat(r, scope, d, false).value);
    case Cond(c, t, f) =>
      FlatBringsInNone(c, scope, d);
      if Flat(t, scope, d, false).Some? { FlatBringsInNone(t, scope, d); }
      if Flat(f, scope, d, false).Some? { FlatBringsInNone(f, scope, d); }
  }

  /** No conditional that is flattened has a selector known to be UNDEFINED, which would be kept as it was written. */
  predicate Decided(e: Expr, scope: Scope, d: nat)
    decreases d, e
  {
    match e
    case Lit(_) => true
    case Ref(name) => name in scope && d > 0 ==> Decided(scope[name], scope, d - 1)
    case Paren(e1) => Decided(e1, scope, d)
    case Un(_, e1) => Decided(e1, scope, d)
    case Bin(_, l, r) => Decided(l, scope, d) && Decided(r, scope, d)
    case Cond(c, t, f) =>
      && Decided(c, scope, d) && Decided(t, scope, d) && Decided(f, scope, d)
      && Flat(c, scope, d, true) != Some(Val(Undefined))
  }

  /** Inlining leaves no reference that the scope defines. */
  lemma {:induction false} InliningLeavesNone(e: Expr, scope: Scope, d: nat)
    requires Decided(e, scope, d) && Flat(e, scope, d, true).Some?
    ensures References(AsTree(Flat(e, scope, d, true).value)) !! scope.Keys
    decreases d, e
  {
    hide DoOperation;
    hide DoUnary;
    hide Combine;
    match e
    case Lit(_) =>
    case Ref(name) => if name in scope { InliningLeavesNone(scope[name], scope, d - 1); }
    case Paren(e1) => InliningLeavesNone(e1, scope, d);
    case Un(_, e1) => InliningLeavesNone(e1, scope, d);
    case Bin(op, l, r) =>
      InliningLeavesNone(l, scope, d);
      InliningLeavesNone(r, scope, d);
      CombineReferences(op, Flat(l, scope, d, true).value, Flat(r, scope, d, true).value);
    case Cond(c, t, f) =>
      InliningLeavesNone(c, scope, d);
      if Flat(t, scope, d, true).Some? { InliningLeavesNone(t, scope, d); }
      if Flat(f, scope, d, true).Some? { InliningLeavesNone(f, scope, d); }
  }

  // ---------- references and conditionals ----------

  /** A missing attribute is UNDEFINED, and any other is worth what its definition is. */
  lemma ReferenceMeans(name: string, env: Scope, d: nat)
    ensures name !in env ==> Eval(Ref(name), env, d) == Some(Undefined)
    ensures name in env && Eval(env[name], env, d).Some? ==> Eval(Ref(name), env, d + 1) == Eval(env[name], env, d)
    ensures name in env ==> Eval(Ref(name), env, 0).None?
  {
  }

  function Replaced(e: Expr, name: string, def: Expr): Expr {
    match e
    case Lit(_) => e
    case Ref(n) => if n == name then def else e
    case Paren(e1) => Paren(Replaced(e1, name, def))
    case Un(op, e1) => Un(op, Replaced(e1, name, def))
    case Bin(op, l, r) => Bin(op, Replaced(l, name, def), Replaced(r, name, def))
    case Cond(c, t, f) => Cond(Replaced(c, name, def), Replaced(t, name, def), Replaced(f, name, def))
  }

  /** An attribute can be replaced by its definition everywhere. */
  lemma {:induction false} ReplacedMeansSame(e: Expr, name: string, env: Scope, d: nat)
    requires name in env && Eval(e, env, d).Some?
    ensures Eval(Replaced(e, name, env[name]), env, d) == Eval(e, env, d)
    decreases e
  {
    hide DoOperation;
    hide DoUnary;
    match e
    case Lit(_) =>
    case Ref(n) => if n == name { EvalDeeper(env[name], env, d - 1); }
    case Paren(e1) => ReplacedMeansSame(e1, name, env, d);
    case Un(_, e1) => ReplacedMeansSame(e1, name, env, d);
    case Bin(op, l, r) =>
      ReplacedMeansSame(l, name, env, d);
      if !ShortCircuits(op, Eval(l, env, d).value) { ReplacedMeansSame(r, name, env, d); }
    case Cond(c, t, f) =>
      ReplacedMeansSame(c, name, env, d);
      var v := Eval(c, env, d).value;
      if v != Bool(false) { ReplacedMeansSame(t, name, env, d); }
      if v != Bool(true) { ReplacedMeansSame(f, name, env, d); }
  }

  /** What an operator and parentheses make of their evaluated operands. */
  lemma {:induction false} OperatorsEvaluate(op: BinOp, uop: UnOp, l: Expr, r: Expr, env: Scope, d: nat)
    requires Eval(l, env, d).Some? && Eval(r, env, d).Some?
    ensures Eval(Bin(op, l, r), env, d) == Some(Combined(op, Eval(l, env, d).value, Eval(r, env, d).value))
    ensures Eval(Un(uop, l), env, d) == Some(DoUnary(uop, Eval(l, env, d).value))
    ensures Eval(Paren(l), env, d) == Eval(l, env, d)
  {
    hide DoOperation;
    hide DoUnary;
  }

  /** A truth value chooses an arm, and its negation the other; an exceptional selector decides by itself. */
  lemma {:induction false} ConditionalMeans(c: Expr, t: Expr, f: Expr, env: Scope, d: nat)
    requires Eval(c, env, d).Some? && Eval(t, env, d).Some? && Eval(f, env, d).Some?
    ensures var v := Eval(c, env, d).value;
      && (v == Bool(true) ==> Eval(Cond(c, t, f), env, d) == Eval(t, env, d))
      && (v.Bool? ==> Eval(Cond(c, t, f), env, d) == Eval(Cond(Un(Not, c), f, t), env, d))
      && (v.Undefined? ==> Eval(Cond(c, t, f), env, d) == Some(Undefined))
      && (!v.Bool? && !v.Undefined? ==> Eval(Cond(c, t, f), env, d) == Some(Error))
  {
    OperatorsEvaluate(Or, Not, c, t, env, d);
  }

  /** On truth values `c ? t : f` is `c && t || !c && f`. */
  lemma {:induction false} ConditionalIsLogical(c: Expr, t: Expr, f: Expr, env: Scope, d: nat)
    requires Eval(c, env, d).Some? && Eval(t, env, d).Some? && Eval(f, env, d).Some?
    requires Eval(c, env, d).value.Bool?
    requires L.IsTruth(Eval(t, env, d).value) && L.IsTruth(Eval(f, env, d).value)
    ensures Eval(Cond(c, t, f), env, d) == Eval(Bin(Or, Bin(And, c, t), Bin(And, Un(Not, c), f)), env, d)
  {
    var n, a, b := Un(Not, c), Bin(And, c, t), Bin(And, Un(Not, c), f);
    OperatorsEvaluate(And, Not, c, t, env, d);
    OperatorsEvaluate(And, Not, n, f, env, d);
    OperatorsEvaluate(Or, Not, a, b, env, d);
    ChoiceIsLogical(Eval(c, env, d).value, Eval(t, env, d).value, Eval(f, env, d).value);
    hide DoOperation;
    hide DoUnary;
    hide Combined;
  }

  lemma ChoiceIsLogical(v: Value, x: Value, y: Value)
    requires v.Bool? && L.IsTruth(x) && L.IsTruth(y)
    ensures Combined(Or, Combined(And, v, x), Combined(And, DoUnary(Not, v), y)) == if v.b then x else y
  {
  }
}
