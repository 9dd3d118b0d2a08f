/**
 What the parser makes of text: which operand an operator takes, and that the
 text read for a tree is the text printed for it.
 */
module Reading {
  import opened Values
  import opened Syntax
  import opened RoundTrip
  import RelativeTime

  // ---------- precedence ----------

  /** The operators of the ten productions, from the outermost to the innermost. */
  const PRODUCTIONS: seq<set<BinOp>> := [
    {Or}, {And}, {BitOr}, {BitXor}, {BitAnd},
    {Eq, Ne, Is, Isnt}, {Lt, Le, Gt, Ge}, {Shl, Shr, UShr}, {Add, Sub}, {Mul, Div, Mod}]

  /** The production of `op2` is nested inside that of `op1`. */
  predicate Inside(op1: BinOp, op2: BinOp) {
    exists i, j :: 0 <= i < j < |PRODUCTIONS| && op1 in PRODUCTIONS[i] && op2 in PRODUCTIONS[j]
  }

  lemma ProductionOf(op: BinOp)
    ensures |PRODUCTIONS| == 10 && op in PRODUCTIONS[Level(op) - 1]
    ensures forall i :: 0 <= i < 10 && op in PRODUCTIONS[i] ==> i == Level(op) - 1
  {
  }

  lemma InsideIsDeeper(op1: BinOp, op2: BinOp)
    ensures Inside(op1, op2) <==> Level(op1) < Level(op2)
  {
    ProductionOf(op1);
    ProductionOf(op2);
    if Level(op1) < Level(op2) {
      assert op1 in PRODUCTIONS[Level(op1) - 1] && op2 in PRODUCTIONS[Level(op2) - 1];
    }
  }

  /** An operand that no operator reaches into: neither a conditional nor a binary operation. */
  predicate IsOperand(e: Expr) {
    Good(e) && !e.Cond? && !e.Bin?
  }

  lemma {:induction false} BinGood(op: BinOp, l: Expr, r: Expr)
    requires Good(l) && Good(r) && Rank(l) >= Level(op) && Rank(r) > Level(op)
    ensures Good(Bin(op, l, r))
  {
  }

  lemma {:induction false} CondGood(c: Expr, t: Expr, f: Expr)
    requires Good(c) && Good(t) && Good(f) && Rank(c) >= 1
    ensures Good(Cond(c, t, f))
  {
  }

  /** The second operator takes the operand between them if it is nested inside the first, and else the first does. */
  lemma {:induction false} ChainReads(a: Expr, op1: BinOp, b: Expr, op2: BinOp, c: Expr, s: seq<Tok>)
    requires IsOperand(a) && IsOperand(b) && IsOperand(c) && Stops(0, s)
    ensures ParseExpression(Print(a) + ([TOp(op1)] + (Print(b) + ([TOp(op2)] + (Print(c) + s))))) ==
      Ok(if Inside(op1, op2) then Bin(op1, a, Bin(op2, b, c)) else Bin(op2, Bin(op1, a, b), c), s)
  {
    InsideIsDeeper(op1, op2);
    var e := if Inside(op1, op2) then Bin(op1, a, Bin(op2, b, c)) else Bin(op2, Bin(op1, a, b), c);
    if Inside(op1, op2) {
      BinGood(op2, b, c);
      BinGood(op1, a, Bin(op2, b, c));
    } else {
      BinGood(op1, a, b);
      BinGood(op2, Bin(op1, a, b), c);
    }
    ChainPrints(a, op1, b, op2, c, s);
    hide *;
    ExpressionReads(e, s);
  }

  lemma {:induction false} BinPrints(op: BinOp, l: Expr, r: Expr, s: seq<Tok>)
    ensures Print(Bin(op, l, r)) + s == Print(l) + ([TOp(op)] + (Print(r) + s))
  {
    assert Print(Bin(op, l, r)) == Print(l) + [TOp(op)] + Print(r);
    hide Print;
    Nested3(Print(l), [TOp(op)], Print(r), s);
  }

  lemma {:induction false} ChainPrints(a: Expr, op1: BinOp, b: Expr, op2: BinOp, c: Expr, s: seq<Tok>)
    ensures var ts := Print(a) + ([TOp(op1)] + (Print(b) + ([TOp(op2)] + (Print(c) + s))));
      && Print(Bin(op1, a, Bin(op2, b, c))) + s == ts
      && Print(Bin(op2, Bin(op1, a, b), c)) + s == ts
  {
    hide *;
    BinPrints(op2, b, c, s);
    BinPrints(op1, a, Bin(op2, b, c), s);
    BinPrints(op2, Bin(op1, a, b), c, s);
    BinPrints(op1, a, b, [TOp(op2)] + (Print(c) + s));
  }

  /** A conditional takes whole operations, and its last arm goes as far as it can. */
  lemma {:induction false} ConditionalReads(a: Expr, op: BinOp, b: Expr, t: Expr, f: Expr, s: seq<Tok>)
    requires IsOperand(a) && IsOperand(b) && Good(t) && Good(f) && Stops(0, s)
    ensures ParseExpression(Print(Bin(op, a, b)) + ([TQMark] + (Print(t) + ([TColon] + (Print(f) + s))))) ==
      Ok(Cond(Bin(op, a, b), t, f), s)
  {
    var e := Cond(Bin(op, a, b), t, f);
    BinGood(op, a, b);
    CondGood(Bin(op, a, b), t, f);
    hide *;
    PrintCond(Bin(op, a, b), t, f, s);
    ExpressionReads(e, s);
  }

  // ---------- the text of a parsed tree ----------

  /** No function that is evaluated while parsing is named. */
  predicate NoTimes(ts: seq<Tok>) {
    forall t :: t in ts && t.TIdent? ==> !IsTimeName(t.name)
  }

  predicate NoAds(e: Expr)
    decreases e
  {
    match e
    case Select(e1, _) => NoAds(e1)
    case Paren(e1) => NoAds(e1)
    case Un(_, e1) => NoAds(e1)
    case Bin(_, l, r) => NoAds(l) && NoAds(r)
    case Subscript(e1, i) => NoAds(e1) && NoAds(i)
    case Cond(c, t, f) => NoAds(c) && NoAds(t) && NoAds(f)
    case Call(_, args) => forall x :: x in args ==> NoAds(x)
    case List(elems) => forall x :: x in elems ==> NoAds(x)
    case Ad(_) => false
    case _ => true
  }

  predicate Spellable(e: Expr) {
    Printable(e) && NoAds(e)
  }

  /** What was read is the text of the tree. */
  predicate Spells(ts: seq<Tok>, p: Parsed) {
    p.Ok? ==> NoTimes(p.rest) && (Spellable(p.tree) ==> ts == Print(p.tree) + p.rest)
  }

  predicate SpellsAll(close: Tok, ts: seq<Tok>, p: ParsedAll) {
    p.OkAll? ==>
      && NoTimes(p.rest)
      && ((forall x :: x in p.trees ==> Spellable(x)) ==> ts == PrintAll(p.trees) + ([close] + p.rest))
  }

  /** The same, going on from a tree that has been read. */
  predicate SpellsFrom(left: Expr, ts: seq<Tok>, p: Parsed) {
    p.Ok? ==>
      && NoTimes(p.rest)
      && (Spellable(p.tree) ==> Spellable(left) && Print(left) + ts == Print(p.tree) + p.rest)
  }

  lemma TailNoTimes(ts: seq<Tok>, n: nat)
    requires NoTimes(ts) && n <= |ts|
    ensures NoTimes(ts[n..])
  {
  }

  lemma {:induction false} ExpressionSpells(ts: seq<Tok>)
    requires NoTimes(ts)
    ensures Spells(ts, ParseExpression(ts))
    decreases |ts|, 15
  {
    hide Print;
    hide PrintAll;
    hide Spellable;
    hide NoTimes;
    hide ParseLevel;
    LevelSpells(1, ts);
    var p := ParseLevel(1, ts);
    if p.Ok? && Next(p.rest, TQMark) {
      TailNoTimes(p.rest, 1);
      ExpressionSpells(p.rest[1..]);
      var m := ParseExpression(p.rest[1..]);
      if m.Ok? && Next(m.rest, TColon) {
        TailNoTimes(m.rest, 1);
        ExpressionSpells(m.rest[1..]);
        var r := ParseExpression(m.rest[1..]);
        if r.Ok? {
          CondSpells(p.tree, m.tree, r.tree, r.rest);
          assert p.rest == [TQMark] + p.rest[1..] && m.rest == [TColon] + m.rest[1..];
        }
      }
    }
  }

  lemma {:induction false} CondSpells(c: Expr, t: Expr, f: Expr, s: seq<Tok>)
    ensures Print(Cond(c, t, f)) + s == Print(c) + ([TQMark] + (Print(t) + ([TColon] + (Print(f) + s))))
    ensures Spellable(Cond(c, t, f)) <==> Spellable(c) && Spellable(t) && Spellable(f)
  {
    PrintCond(c, t, f, s);
    hide Print;
  }

  lemma {:induction false} LevelSpells(k: nat, ts: seq<Tok>)
    requires 1 <= k <= 11 && NoTimes(ts)
    ensures Spells(ts, ParseLevel(k, ts))
    decreases |ts|, 14 - k
  {
    if k == 11 {
      UnarySpells(ts);
    } else {
      LevelSpells(k + 1, ts);
      var p := ParseLevel(k + 1, ts);
      if p.Ok? { OperatorsSpell(k, p.tree, p.rest); }
    }
  }

  lemma {:induction false} OperatorsSpell(k: nat, left: Expr, ts: seq<Tok>)
    requires 1 <= k <= 10 && NoTimes(ts)
    ensures SpellsFrom(left, ts, ParseOperators(k, left, ts))
    decreases |ts|, 0
  {
    hide Print;
    hide PrintAll;
    hide Spellable;
    hide NoTimes;
    hide ParseLevel;
    if ts != [] && ts[0].TOp? && Level(ts[0].op) == k {
      TailNoTimes(ts, 1);
      LevelSpells(k + 1, ts[1..]);
      var p := ParseLevel(k + 1, ts[1..]);
      if p.Ok? {
        OperatorsSpell(k, Bin(ts[0].op, left, p.tree), p.rest);
        BinSpells(ts[0].op, left, p.tree, p.rest);
        assert ts == [ts[0]] + ts[1..];
      }
    }
  }

  lemma {:induction false} BinSpells(op: BinOp, l: Expr, r: Expr, s: seq<Tok>)
    ensures Print(Bin(op, l, r)) + s == Print(l) + ([TOp(op)] + (Print(r) + s))
    ensures Spellable(Bin(op, l, r)) <==> Spellable(l) && Spellable(r)
  {
    BinPrints(op, l, r, s);
    hide Print;
  }

  lemma {:induction false} UnarySpells(ts: seq<Tok>)
    requires NoTimes(ts)
    ensures Spells(ts, ParseUnary(ts))
    decreases |ts|, 2
  {
    hide Print;
    hide PrintAll;
    hide Spellable;
    hide NoTimes;
    if ts != [] && UnaryOf(ts[0]).Some? {
      TailNoTimes(ts, 1);
      UnarySpells(ts[1..]);
      var p, op := ParseUnary(ts[1..]), UnaryOf(ts[0]).value;
      if p.Ok? {
        UnSpells(op, p.tree, p.rest);
        assert ts == [UnaryTok(op)] + ts[1..];
      }
    } else {
      PostfixSpells(ts);
    }
  }

  lemma {:induction false} UnSpells(op: UnOp, e: Expr, s: seq<Tok>)
    ensures Spellable(Un(op, e)) ==> Spellable(e) && Print(Un(op, e)) + s == [UnaryTok(op)] + (Print(e) + s)
  {
    if Spellable(Un(op, e)) {
      assert Print(Un(op, e)) == [UnaryTok(op)] + Print(e);
      hide Print;
    }
  }

  lemma {:induction false} PostfixSpells(ts: seq<Tok>)
    requires NoTimes(ts)
    ensures Spells(ts, ParsePostfix(ts))
    decreases |ts|, 1
  {
    PrimarySpells(ts);
    var p := ParsePrimary(ts);
    if p.Ok? { SuffixesSpell(p.tree, p.rest); }
  }

  lemma {:induction false} SubscriptSpells(e: Expr, i: Expr, s: seq<Tok>)
    ensures Print(Subscript(e, i)) + s == Print(e) + ([TOpenBox] + (Print(i) + ([TCloseBox] + s)))
    ensures Spellable(Subscript(e, i)) <==> Spellable(e) && Spellable(i)
  {
    PrintSubscript(e, i, s);
    hide Print;
  }

  lemma {:induction false} SelectSpells(e: Expr, name: string, s: seq<Tok>)
    ensures Spellable(Select(e, name)) ==>
      Spellable(e) && Print(Select(e, name)) + s == Print(e) + ([TDot, TIdent(name)] + s)
  {
    if Spellable(Select(e, name)) { PrintSelect(e, name, s); }
    hide Print;
    hide IsPlain;
    hide Keyword;
  }

  lemma {:induction false} SuffixesSpell(left: Expr, ts: seq<Tok>)
    requires NoTimes(ts)
    ensures SpellsFrom(left, ts, ParseSuffixes(left, ts))
    decreases |ts|, 0
  {
    hide Print;
    hide PrintAll;
    hide Spellable;
    hide NoTimes;
    hide ParseExpression;
    if Next(ts, TOpenBox) {
      TailNoTimes(ts, 1);
      ExpressionSpells(ts[1..]);
      var p := ParseExpression(ts[1..]);
      if p.Ok? && Next(p.rest, TCloseBox) {
        TailNoTimes(p.rest, 1);
        SuffixesSpell(Subscript(left, p.tree), p.rest[1..]);
        SubscriptSpells(left, p.tree, p.rest[1..]);
        assert ts == [TOpenBox] + ts[1..] && p.rest == [TCloseBox] + p.rest[1..];
      }
    } else if Next(ts, TDot) && |ts| > 1 && ts[1].TIdent? {
      TailNoTimes(ts, 2);
      SuffixesSpell(Select(left, ts[1].name), ts[2..]);
      assert ts == [TDot, ts[1]] + ts[2..];
      SelectSpells(left, ts[1].name, ts[2..]);
    }
  }

  lemma CallStays(name: string, args: seq<Expr>)
    requires !IsTimeName(name)
    ensures MakeCall(name, args) == Call(name, args)
  {
  }

  lemma {:induction false} CallSpells(name: string, args: seq<Expr>, s: seq<Tok>)
    requires Spellable(Call(name, args))
    ensures forall x :: x in args ==> Spellable(x)
    ensures Print(Call(name, args)) + s == [TIdent(name), TOpenParen] + (PrintAll(args) + ([TCloseParen] + s))
  {
    PrintCall(name, args, s);
    hide Print;
  }

  lemma {:induction false} NameSpells(name: string, s: seq<Tok>)
    ensures Spellable(Ref(name)) ==> Print(Ref(name)) + s == [TIdent(name)] + s
    ensures Spellable(AbsRef(name)) ==> Print(AbsRef(name)) + s == [TDot, TIdent(name)] + s
  {
    hide Keyword;
  }

  lemma {:induction false} ListSpells(elems: seq<Expr>, s: seq<Tok>)
    ensures Print(List(elems)) + s == [TOpenBrace] + (PrintAll(elems) + ([TCloseBrace] + s))
    ensures Spellable(List(elems)) <==> forall x :: x in elems ==> Spellable(x)
  {
    assert Print(List(elems)) == [TOpenBrace] + PrintAll(elems) + [TCloseBrace];
    hide Print;
    hide PrintAll;
    PrintBrackets([TOpenBrace], PrintAll(elems), TCloseBrace, s);
  }

  lemma {:induction false} ParenSpells(e: Expr, s: seq<Tok>)
    ensures Print(Paren(e)) + s == [TOpenParen] + (Print(e) + ([TCloseParen] + s))
    ensures Spellable(Paren(e)) <==> Spellable(e)
  {
    assert Print(Paren(e)) == [TOpenParen] + Print(e) + [TCloseParen];
    hide Print;
    PrintBrackets([TOpenParen], Print(e), TCloseParen, s);
  }

  lemma {:induction false} CallTextSpells(ts: seq<Tok>)
    requires NoTimes(ts) && ts != [] && ts[0].TIdent? && Next(ts[1..], TOpenParen)
    ensures Spells(ts, ParsePrimary(ts))
    decreases |ts|, 0, 0
  {
    assert !IsTimeName(ts[0].name);
    hide Print;
    hide PrintAll;
    hide Spellable;
    hide NoTimes;
    hide MakeCall;
    hide ParseAll;
    var name := ts[0].name;
    TailNoTimes(ts, 2);
    AllSpell(TCloseParen, ts[2..]);
    var a := ParseAll(TCloseParen, ts[2..]);
    if a.OkAll? {
      CallStays(name, a.trees);
      if Spellable(Call(name, a.trees)) { CallSpells(name, a.trees, a.rest); }
      assert ts == [TIdent(name), TOpenParen] + ts[2..];
    }
  }

  lemma {:induction false} PrimarySpells(ts: seq<Tok>)
    requires NoTimes(ts)
    ensures Spells(ts, ParsePrimary(ts))
    decreases |ts|, 0, 1
  {
    hide Print;
    hide PrintAll;
    hide Spellable;
    hide NoTimes;
    hide ParseExpression;
    hide ParseAll;
    hide ParseAttrs;
    if ts != [] {
      TailNoTimes(ts, 1);
      if ts[0].TIdent? {
        if Next(ts[1..], TOpenParen) {
          CallTextSpells(ts);
        } else {
          NameSpells(ts[0].name, ts[1..]);
          assert ts == [ts[0]] + ts[1..];
        }
      } else if ts[0] == TDot {
        if |ts| > 1 && ts[1].TIdent? {
          TailNoTimes(ts, 2);
          NameSpells(ts[1].name, ts[2..]);
          assert ts == [ts[0], ts[1]] + ts[2..];
        }
      } else if ts[0] == TOpenParen {
        ExpressionSpells(ts[1..]);
        var p := ParseExpression(ts[1..]);
        if p.Ok? && Next(p.rest, TCloseParen) {
          TailNoTimes(p.rest, 1);
          ParenSpells(p.tree, p.rest[1..]);
          assert ts == [TOpenParen] + ts[1..] && p.rest == [TCloseParen] + p.rest[1..];
        }
      } else if ts[0] == TOpenBrace {
        AllSpell(TCloseBrace, ts[1..]);
        var a := ParseAll(TCloseBrace, ts[1..]);
        if a.OkAll? {
          ListSpells(a.trees, a.rest);
          assert ts == [TOpenBrace] + ts[1..];
        }
      } else if ts[0] == TOpenBox {
        AdSpellsNothing(ts);
      } else {
        LiteralSpells(ts);
      }
    }
  }

  lemma {:induction false} LiteralSpells(ts: seq<Tok>)
    requires NoTimes(ts) && ts != []
    requires !ts[0].TIdent? && ts[0] !in {TDot, TOpenParen, TOpenBrace, TOpenBox}
    ensures Spells(ts, ParsePrimary(ts))
  {
    assert ts == [ts[0]] + ts[1..];
    TailNoTimes(ts, 1);
    hide NoTimes;
    hide ParseAttrs;
    hide ParseAll;
    hide ParseExpression;
  }

  lemma {:induction false} AdSpellsNothing(ts: seq<Tok>)
    requires NoTimes(ts) && Next(ts, TOpenBox)
    ensures Spells(ts, ParsePrimary(ts))
    decreases |ts|, 0, 0
  {
    TailNoTimes(ts, 1);
    AttrsLeave([], ts[1..], true);
  }

  /** Reading an ad makes an ad and leaves an end of the text. */
  lemma {:induction false} AttrsLeave(attrs: seq<Attr>, ts: seq<Tok>, mayClose: bool)
    requires NoTimes(ts)
    ensures var p := ParseAttrs(attrs, ts, mayClose); p.Ok? ==> p.tree.Ad? && NoTimes(p.rest)
    decreases |ts|, 16
  {
    if ts != [] {
      TailNoTimes(ts, 1);
      if mayClose && ts[0] == TCloseBox {
      } else if ts[0] == TSemi {
        AttrsLeave(attrs, ts[1..], false);
      } else if ts[0].TIdent? && Next(ts[1..], TAssign) {
        TailNoTimes(ts, 2);
        ExpressionSpells(ts[2..]);
        var p := ParseExpression(ts[2..]);
        if p.Ok? {
          SemisLeave(p.rest);
          AttrsLeave(InsertAttr(attrs, ts[0].name, p.tree), SkipSemis(p.rest), true);
        }
      }
    }
  }

  lemma {:induction false} SemisLeave(ts: seq<Tok>)
    requires NoTimes(ts)
    ensures NoTimes(SkipSemis(ts))
  {
    if Next(ts, TSemi) {
      TailNoTimes(ts, 1);
      SemisLeave(ts[1..]);
    }
  }

  lemma {:induction false} AllSpell(close: Tok, ts: seq<Tok>)
    requires NoTimes(ts)
    ensures SpellsAll(close, ts, ParseAll(close, ts))
    decreases |ts|, 17
  {
    if Next(ts, close) {
      TailNoTimes(ts, 1);
      assert ts == [close] + ts[1..];
    } else {
      SomeSpell(close, ts);
    }
  }

  lemma {:induction false} PrintOne(e: Expr)
    ensures PrintAll([e]) == Print(e)
  {
  }

  lemma {:induction false} SomeSpell(close: Tok, ts: seq<Tok>)
    requires NoTimes(ts)
    ensures SpellsAll(close, ts, ParseSome(close, ts))
    ensures ParseSome(close, ts).OkAll? ==> ParseSome(close, ts).trees != []
    decreases |ts|, 16
  {
    hide Print;
    hide PrintAll;
    hide Spellable;
    hide NoTimes;
    hide ParseExpression;
    ExpressionSpells(ts);
    var p := ParseExpression(ts);
    if p.Ok? && Next(p.rest, TComma) {
      TailNoTimes(p.rest, 1);
      SomeSpell(close, p.rest[1..]);
      var a := ParseSome(close, p.rest[1..]);
      if a.OkAll? {
        var es := [p.tree] + a.trees;
        assert es[1..] == a.trees && es[0] == p.tree;
        PrintAllStep(es, [close] + a.rest);
        assert p.rest == [TComma] + p.rest[1..];
      }
    } else if p.Ok? && Next(p.rest, close) {
      TailNoTimes(p.rest, 1);
      PrintOne(p.tree);
      assert p.rest == [close] + p.rest[1..];
    }
  }

  // ---------- what is read in place of what was written ----------

  /** A reserved word is read as what it stands for, in any mix of cases, and not as a reference. */
  lemma {:induction false} ReservedWordsRead(name: string, s: seq<Tok>)
    requires Stops(0, s)
    ensures Lower(name) == "true" ==> ParseExpression(Print(Ref(name)) + s) == Ok(Lit(LBool(true)), s)
    ensures Lower(name) == "false" ==> ParseExpression(Print(Ref(name)) + s) == Ok(Lit(LBool(false)), s)
    ensures Lower(name) == "undefined" ==> ParseExpression(Print(Ref(name)) + s) == Ok(Lit(LUndefined), s)
    ensures Lower(name) == "error" ==> ParseExpression(Print(Ref(name)) + s) == Ok(Lit(LError), s)
    ensures Lower(name) == "is" ==> Print(Ref(name)) == [TOp(Is)]
    ensures Lower(name) == "isnt" ==> Print(Ref(name)) == [TOp(Isnt)]
  {
    hide Lower;
    hide ParseExpression;
    LiteralExpression(LBool(true), s);
    LiteralExpression(LBool(false), s);
    LiteralExpression(LUndefined, s);
    LiteralExpression(LError, s);
  }

  lemma {:induction false} LiteralExpression(lit: Literal, s: seq<Tok>)
    requires !lit.LAbsTime? && !lit.LRelTime? && Stops(0, s)
    ensures ParseExpression(PrintLit(lit) + s) == Ok(Lit(lit), s)
  {
    assert Good(Lit(lit)) && Print(Lit(lit)) == PrintLit(lit);
    hide *;
    ExpressionReads(Lit(lit), s);
  }

  /** A minus sign written right before a number is read as the sign of the number. */
  lemma {:induction false} NegatedNumberReads(n: int, f: Factor, s: seq<Tok>)
    requires n >= 0 && Stops(0, s)
    ensures ParseExpression(Print(Un(UMinus, Lit(LInt(n, f)))) + s) == Ok(Lit(LInt(-n, f)), s)
  {
    assert Print(Un(UMinus, Lit(LInt(n, f)))) == PrintLit(LInt(-n, f));
    LiteralExpression(LInt(-n, f), s);
  }

  /** A text whose first token is a positive number begins with a digit, and one that begins so begins with a number. */
  lemma {:induction false} DigitFirst(e: Expr)
    ensures Print(e) != []
    ensures Print(e)[0].TInt? && Print(e)[0].i > 0 ==> StartsWithDigit(e)
    ensures StartsWithDigit(e) ==> (Print(e)[0].TInt? && Print(e)[0].i >= 0) || Print(e)[0] == TBad
    decreases e
  {
    hide Lower;
    hide IsPlain;
    match e
    case Lit(_) => hide RelativeTime.RelTimeText;
    case Select(e1, name) => DigitFirst(e1);
    case Un(op, e1) => DigitFirst(e1);
    case Bin(_, l, _) => DigitFirst(l);
    case Subscript(e1, _) => DigitFirst(e1);
    case Cond(c, _, _) => DigitFirst(c);
    case _ =>
  }

  /** A selection from a plain integer is not read at all. */
  lemma {:induction false} SelectionFromInteger(n: int, name: string, s: seq<Tok>)
    ensures ParseExpression(Print(Select(Lit(LInt(n, NoFactor)), name)) + s) == Fail
  {
    var ts := Print(Select(Lit(LInt(n, NoFactor)), name)) + s;
    var e := Lit(LInt(n, NoFactor));
    assert Print(e) == [TInt(n, NoFactor)];
    assert DotAfter(Print(e)) == [TBad];
    assert Print(Select(e, name)) == DotAfter(Print(e)) + [RawTok(name)];
    assert ts[0] == TBad;
    hide Print;
    BadTokenFails(1, ts);
  }

  lemma {:induction false} BadTokenFails(k: nat, ts: seq<Tok>)
    requires 1 <= k <= 11 && Next(ts, TBad)
    ensures ParseLevel(k, ts) == Fail
    decreases 11 - k
  {
    if k == 11 {
      assert ParsePrimary(ts) == Fail;
      LevelUnary(ts);
      UnaryPostfix(ts);
    } else {
      BadTokenFails(k + 1, ts);
    }
  }

  /** The value that an ad's attribute list gives a name, in any case. */
  function ValueOf(attrs: seq<Attr>, name: string): Option<Expr> {
    if attrs == [] then None
    else if Lower(attrs[0].name) == Lower(name) then Some(attrs[0].e)
    else ValueOf(attrs[1..], name)
  }

  /** Of two attributes with one name the later value is kept, and every other attribute as it was. */
  lemma {:induction false} LaterValueKept(attrs: seq<Attr>, name: string, e: Expr, other: string)
    ensures ValueOf(InsertAttr(attrs, name, e), other) ==
      if Lower(other) == Lower(name) then Some(e) else ValueOf(attrs, other)
  {
    hide Lower;
    if attrs != [] && Lower(attrs[0].name) != Lower(name) {
      LaterValueKept(attrs[1..], name, e, other);
      assert ([attrs[0]] + InsertAttr(attrs[1..], name, e))[1..] == InsertAttr(attrs[1..], name, e);
    }
  }

  function Semis(n: nat): seq<Tok> {
    if n == 0 then [] else [TSemi] + Semis(n - 1)
  }

  /** Any number of semicolons after an attribute is as good as one; a lone one in an ad is not read. */
  lemma {:induction false} SemicolonsSkipped(n: nat, ts: seq<Tok>)
    requires !Next(ts, TSemi)
    ensures SkipSemis(Semis(n) + ts) == ts
    ensures ParseAttrs([], [TSemi, TCloseBox] + ts, true) == Fail
  {
    if n > 0 {
      assert (Semis(n) + ts)[1..] == Semis(n - 1) + ts;
      SemicolonsSkipped(n - 1, ts);
    }
    var lone := [TSemi, TCloseBox] + ts;
    assert lone[1..][0] == TCloseBox;
  }

  lemma SemisEnd(n: nat, ts: seq<Tok>)
    requires n > 0
    ensures (Semis(n) + ts)[0] == TSemi && (Semis(n) + ts)[1..] == Semis(n - 1) + ts
  {
  }

  /** Where an ad may not close it is read as where it may, unless it would close. */
  lemma MayCloseOnly(attrs: seq<Attr>, ts: seq<Tok>)
    requires !Next(ts, TCloseBox)
    ensures ParseAttrs(attrs, ts, false) == ParseAttrs(attrs, ts, true)
  {
    hide ParseExpression;
  }

  lemma {:induction false} LeadingSemis(n: nat, ts: seq<Tok>, mayClose: bool)
    requires !Next(ts, TCloseBox)
    ensures ParseAttrs([], Semis(n) + ts, mayClose) == ParseAttrs([], ts, true)
  {
    if n == 0 {
      assert Semis(0) + ts == ts;
      MayCloseOnly([], ts);
    } else {
      SemisEnd(n, ts);
      LeadingSemis(n - 1, ts, false);
    }
  }

  /** Semicolons in front of the first attribute are skipped. */
  lemma {:induction false} LeadingSemicolons(n: nat, attrs: seq<Attr>, s: seq<Tok>)
    requires attrs != [] && Good(Ad(attrs))
    ensures ParseAttrs([], Semis(n) + (PrintAttrs(attrs) + ([TCloseBox] + s)), true) == Ok(Ad(attrs), s)
  {
    var ts := PrintAttrs(attrs) + ([TCloseBox] + s);
    assert ts[0] == NameTok(attrs[0].name);
    NamesOpen(attrs[0].name);
    assert [] + attrs == attrs;
    AttrsRead([], attrs, s);
    hide ParseAttrs;
    LeadingSemis(n, ts, true);
  }

  /**
   The grammar is unambiguous: whatever text is read as a tree that its text
   spells is the printed text of that tree and nothing else.  Ads are left out,
   which may have extra semicolons, and so is text that names a function
   evaluated while parsing.
   */
  lemma {:induction false} OnlyPrintedTextReads(ts: seq<Tok>, e: Expr, s: seq<Tok>)
    requires NoTimes(ts) && Spellable(e) && ParseExpression(ts) == Ok(e, s)
    ensures ts == Print(e) + s
  {
    ExpressionSpells(ts);
  }
}
