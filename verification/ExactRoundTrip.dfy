/**
 The round trip holds on the good trees only.

 Every name, selection dot and minus sign of a tree weighs one, and so does the
 token that spells it.  Parsing never gains weight, while printing a tree that
 is not `Printable` loses some: its text cannot be read back as the same tree.
 */
module ExactRoundTrip {
  import opened Values
  import opened Syntax
  import opened RoundTrip

  function TokWeight(t: Tok): nat {
    match t
    case TIdent(_) => 1
    case TDot => 1
    case TOp(Sub) => 1
    case _ => 0
  }

  function Weights(ts: seq<Tok>): nat {
    if ts == [] then 0 else TokWeight(ts[0]) + Weights(ts[1..])
  }

  function Weight(e: Expr): nat
    decreases e, 1
  {
    match e
    case Lit(LRelTime(_)) => 1
    case Lit(_) => 0
    case Ref(_) => 1
    case AbsRef(_) => 2
    case Select(e1, _) => Weight(e1) + 2
    case Paren(e1) => Weight(e1)
    case Un(op, e1) => TokWeight(UnaryTok(op)) + Weight(e1)
    case Bin(op, l, r) => Weight(l) + TokWeight(TOp(op)) + Weight(r)
    case Subscript(e1, i) => Weight(e1) + Weight(i)
    case Cond(c, t, f) => Weight(c) + Weight(t) + Weight(f)
    case Call(_, args) => 1 + WeightAll(args)
    case List(elems) => WeightAll(elems)
    case Ad(attrs) => WeightAttrs(attrs)
  }

  function WeightAll(es: seq<Expr>): nat
    decreases es, 0
  {
    if es == [] then 0 else Weight(es[0]) + WeightAll(es[1..])
  }

  function WeightAttrs(attrs: seq<Attr>): nat
    decreases attrs, 0
  {
    if attrs == [] then 0 else 1 + Weight(attrs[0].e) + WeightAttrs(attrs[1..])
  }

  lemma {:induction false} WeightsJoin(a: seq<Tok>, b: seq<Tok>)
    ensures Weights(a + b) == Weights(a) + Weights(b)
  {
    if a == [] {
      assert a + b == b;
    } else {
      WeightsJoin(a[1..], b);
      assert (a + b)[1..] == a[1..] + b;
    }
  }

  lemma WeightsOne(ts: seq<Tok>)
    requires ts != []
    ensures Weights(ts) == TokWeight(ts[0]) + Weights(ts[1..])
  {
    hide TokWeight;
  }

  lemma WeightsTwo(ts: seq<Tok>)
    requires |ts| >= 2
    ensures Weights(ts) == TokWeight(ts[0]) + TokWeight(ts[1]) + Weights(ts[2..])
  {
    hide TokWeight;
    assert ts[1..][1..] == ts[2..];
  }

  // ---------- parsing never gains weight ----------

  predicate Bounded(p: Parsed, w: nat) {
    p.Ok? ==> Weight(p.tree) + Weights(p.rest) <= w
  }

  predicate AllBounded(p: ParsedAll, w: nat) {
    p.OkAll? ==> WeightAll(p.trees) + Weights(p.rest) <= w
  }

  lemma {:induction false} ExpressionBounded(ts: seq<Tok>)
    ensures Bounded(ParseExpression(ts), Weights(ts))
    decreases |ts|, 15
  {
    hide ParseLevel;
    LevelBounded(1, ts);
    var p := ParseLevel(1, ts);
    if p.Ok? && Next(p.rest, TQMark) {
      ExpressionBounded(p.rest[1..]);
      var m := ParseExpression(p.rest[1..]);
      if m.Ok? && Next(m.rest, TColon) { ExpressionBounded(m.rest[1..]); }
    }
  }

  lemma {:induction false} LevelBounded(k: nat, ts: seq<Tok>)
    requires 1 <= k <= 11
    ensures Bounded(ParseLevel(k, ts), Weights(ts))
    decreases |ts|, 14 - k
  {
    hide ParseUnary;
    hide ParseOperators;
    if k == 11 {
      UnaryBounded(ts);
    } else {
      LevelBounded(k + 1, ts);
      var p := ParseLevel(k + 1, ts);
      if p.Ok? { OperatorsBounded(k, p.tree, p.rest); }
    }
  }

  lemma {:induction false} OperatorsBounded(k: nat, left: Expr, ts: seq<Tok>)
    requires 1 <= k <= 10
    ensures Bounded(ParseOperators(k, left, ts), Weight(left) + Weights(ts))
    decreases |ts|, 0
  {
    hide ParseLevel;
    hide TokWeight;
    if ts != [] && ts[0].TOp? && Level(ts[0].op) == k {
      LevelBounded(k + 1, ts[1..]);
      var p := ParseLevel(k + 1, ts[1..]);
      if p.Ok? { OperatorsBounded(k, Bin(ts[0].op, left, p.tree), p.rest); }
    }
  }

  lemma {:induction false} UnaryBounded(ts: seq<Tok>)
    ensures Bounded(ParseUnary(ts), Weights(ts))
    decreases |ts|, 2
  {
    hide ParsePrimary;
    hide ParseSuffixes;
    if ts != [] && UnaryOf(ts[0]).Some? {
      UnaryBounded(ts[1..]);
      assert UnaryTok(UnaryOf(ts[0]).value) == ts[0];
    } else {
      PrimaryBounded(ts);
      var p := ParsePrimary(ts);
      if p.Ok? { SuffixesBounded(p.tree, p.rest); }
    }
  }

  lemma SuffixWeights(e: Expr, i: Expr, name: string)
    ensures Weight(Subscript(e, i)) == Weight(e) + Weight(i) && Weight(Select(e, name)) == Weight(e) + 2
  {
  }

  lemma {:induction false} SuffixesBounded(left: Expr, ts: seq<Tok>)
    ensures Bounded(ParseSuffixes(left, ts), Weight(left) + Weights(ts))
    decreases |ts|, 0
  {
    hide ParseExpression;
    hide Weights;
    hide Weight;
    if Next(ts, TOpenBox) {
      ExpressionBounded(ts[1..]);
      WeightsOne(ts);
      var p := ParseExpression(ts[1..]);
      if p.Ok? && Next(p.rest, TCloseBox) {
        WeightsOne(p.rest);
        SuffixWeights(left, p.tree, "");
        SuffixesBounded(Subscript(left, p.tree), p.rest[1..]);
      }
    } else if Next(ts, TDot) && |ts| > 1 && ts[1].TIdent? {
      WeightsTwo(ts);
      SuffixWeights(left, left, ts[1].name);
      SuffixesBounded(Select(left, ts[1].name), ts[2..]);
    }
  }

  lemma CallBounded(name: string, args: seq<Expr>)
    ensures Weight(MakeCall(name, args)) <= 1 + WeightAll(args)
  {
    hide Lower;
    hide RelativeTime.MakeRelTime;
  }

  lemma {:induction false} PrimaryBounded(ts: seq<Tok>)
    ensures Bounded(ParsePrimary(ts), Weights(ts))
    decreases |ts|, 0
  {
    hide MakeCall;
    hide ParseAll;
    hide ParseAttrs;
    hide ParseExpression;
    hide Weights;
    if ts != [] {
      WeightsOne(ts);
      match ts[0]
      case TIdent(name) =>
        if Next(ts[1..], TOpenParen) {
          WeightsTwo(ts);
          ListBounded(TCloseParen, ts[2..]);
          var a := ParseAll(TCloseParen, ts[2..]);
          if a.OkAll? { CallBounded(name, a.trees); }
        }
      case TDot => if |ts| > 1 { WeightsTwo(ts); }
      case TOpenParen =>
        ExpressionBounded(ts[1..]);
        var p := ParseExpression(ts[1..]);
        if p.Ok? && p.rest != [] { WeightsOne(p.rest); }
      case TOpenBox => AttrsBounded([], ts[1..], true);
      case TOpenBrace => ListBounded(TCloseBrace, ts[1..]);
      case _ =>
    }
  }

  lemma {:induction false} ListBounded(close: Tok, ts: seq<Tok>)
    ensures AllBounded(ParseAll(close, ts), Weights(ts))
    decreases |ts|, 17
  {
    hide ParseSome;
    if !Next(ts, close) { SomeBounded(close, ts); }
  }

  lemma {:induction false} SomeBounded(close: Tok, ts: seq<Tok>)
    ensures AllBounded(ParseSome(close, ts), Weights(ts))
    decreases |ts|, 16
  {
    hide ParseExpression;
    ExpressionBounded(ts);
    var p := ParseExpression(ts);
    if p.Ok? && Next(p.rest, TComma) {
      SomeBounded(close, p.rest[1..]);
      var a := ParseSome(close, p.rest[1..]);
      if a.OkAll? { assert ([p.tree] + a.trees)[1..] == a.trees; }
    } else if p.Ok? {
      assert WeightAll([p.tree]) == Weight(p.tree) by { assert [p.tree][1..] == []; }
      assert p.rest != [] ==> Weights(p.rest[1..]) <= Weights(p.rest);
    }
  }

  lemma {:induction false} InsertBounded(attrs: seq<Attr>, name: string, e: Expr)
    ensures WeightAttrs(InsertAttr(attrs, name, e)) <= WeightAttrs(attrs) + 1 + Weight(e)
  {
    hide Lower;
    if attrs != [] {
      InsertBounded(attrs[1..], name, e);
      var rest := InsertAttr(attrs[1..], name, e);
      assert ([attrs[0]] + rest)[1..] == rest;
      assert ([Attr(attrs[0].name, e)] + attrs[1..])[1..] == attrs[1..];
    }
  }

  lemma {:induction false} SkipBounded(ts: seq<Tok>)
    ensures Weights(SkipSemis(ts)) == Weights(ts)
  {
    if Next(ts, TSemi) { SkipBounded(ts[1..]); }
  }

  lemma {:induction false} AttrsBounded(attrs: seq<Attr>, ts: seq<Tok>, mayClose: bool)
    ensures Bounded(ParseAttrs(attrs, ts, mayClose), WeightAttrs(attrs) + Weights(ts))
    decreases |ts|, 16
  {
    hide ParseExpression;
    hide InsertAttr;
    hide SkipSemis;
    hide WeightAttrs;
    hide Weights;
    if ts != [] {
      WeightsOne(ts);
      if ts[0] == TSemi {
        AttrsBounded(attrs, ts[1..], false);
      } else if ts[0].TIdent? && Next(ts[1..], TAssign) {
        WeightsTwo(ts);
        ExpressionBounded(ts[2..]);
        var p := ParseExpression(ts[2..]);
        if p.Ok? && ts[0].name != "" && (Next(p.rest, TSemi) || Next(p.rest, TCloseBox)) {
          InsertBounded(attrs, ts[0].name, p.tree);
          SkipBounded(p.rest);
          AttrsBounded(InsertAttr(attrs, ts[0].name, p.tree), SkipSemis(p.rest), true);
        }
      }
    }
  }

  // ---------- printing loses weight where the text lies ----------

  predicate Loses(e: Expr) {
    Weights(Print(e)) <= Weight(e) && (!Printable(e) ==> Weights(Print(e)) < Weight(e))
  }

  lemma Joins3(a: seq<Tok>, x: Tok, b: seq<Tok>)
    ensures Weights(a + [x] + b) == Weights(a) + TokWeight(x) + Weights(b)
  {
    hide TokWeight;
    WeightsJoin(a, [x]);
    WeightsJoin(a + [x], b);
    assert [x][1..] == [];
  }

  lemma Brackets(open: Tok, inner: seq<Tok>, close: Tok)
    ensures Weights([open] + inner + [close]) == TokWeight(open) + Weights(inner) + TokWeight(close)
  {
    hide TokWeight;
    WeightsJoin([open] + inner, [close]);
    WeightsJoin([open], inner);
    assert [close][1..] == [] && [open][1..] == [];
  }

  lemma NameWeight(name: string)
    ensures TokWeight(NameTok(name)) == if Keyword(name).None? then 1 else 0
    ensures TokWeight(RawTok(name)) == if IsPlain(name) && Keyword(name).None? then 1 else 0
  {
    hide Lower;
  }

  lemma GlueWeight(ts: seq<Tok>)
    ensures Weights(Glue(ts)) == Weights(ts)
  {
    if ts != [] && ts[0].TInt? {
      assert ([TInt(-ts[0].i, ts[0].f)] + ts[1..])[1..] == ts[1..];
    }
  }

  lemma {:induction false} WeightsLast(ts: seq<Tok>, t: Tok)
    ensures Weights(ts + [t]) == Weights(ts) + TokWeight(t)
  {
    hide TokWeight;
    WeightsJoin(ts, [t]);
    assert [t][1..] == [];
  }

  lemma {:induction false} DotWeight(ts: seq<Tok>)
    requires ts != []
    ensures Weights(DotAfter(ts)) == Weights(ts) + if ts[|ts| - 1].TInt? && ts[|ts| - 1].f.NoFactor? then 0 else 1
  {
    var n := |ts| - 1;
    assert ts == ts[..n] + [ts[n]];
    WeightsLast(ts[..n], ts[n]);
    WeightsLast(ts[..n], TBad);
    WeightsLast(ts, TDot);
    hide Weights;
  }

  lemma LiteralLoses(lit: Literal)
    requires WholeTimes(Lit(lit))
    ensures Loses(Lit(lit))
  {
    hide RelativeTime.RelTimeText;
    var ts := PrintLit(lit);
    if lit.LRelTime? {
      WeightsTwo(ts);
      WeightsTwo(ts[2..]);
    } else {
      WeightsOne(ts);
      assert ts[1..] == [];
    }
  }

  lemma {:induction false} SelectLoses(e: Expr, name: string)
    requires Loses(e)
    ensures Loses(Select(e, name))
  {
    hide IsPlain;
    hide Keyword;
    hide DotAfter;
    hide RawTok;
    hide TokWeight;
    PrintNonEmpty(e);
    var ts := Print(e);
    NameWeight(name);
    DotWeight(ts);
    WeightsJoin(DotAfter(ts), [RawTok(name)]);
    assert [RawTok(name)][1..] == [];
  }

  lemma {:induction false} UnaryLoses(op: UnOp, e: Expr)
    requires Loses(e)
    ensures Loses(Un(op, e))
  {
    hide Glue;
    GlueWeight(Print(e));
    WeightsJoin([UnaryTok(op)], Print(e));
    assert [UnaryTok(op)][1..] == [];
  }

  lemma {:induction false} SubscriptLoses(e: Expr, i: Expr)
    requires Loses(e) && Loses(i)
    ensures Loses(Subscript(e, i))
  {
    Joins3(Print(e), TOpenBox, Print(i));
    WeightsLast(Print(e) + [TOpenBox] + Print(i), TCloseBox);
    hide Weights;
  }

  lemma {:induction false} CondLoses(c: Expr, t: Expr, f: Expr)
    requires Loses(c) && Loses(t) && Loses(f)
    ensures Loses(Cond(c, t, f))
  {
    assert Print(Cond(c, t, f)) == Print(c) + [TQMark] + Print(t) + [TColon] + Print(f);
    hide Print;
    Joins3(Print(c), TQMark, Print(t));
    Joins3(Print(c) + [TQMark] + Print(t), TColon, Print(f));
    hide Weights;
  }

  lemma {:induction false} CallLoses(name: string, args: seq<Expr>)
    requires Weights(PrintAll(args)) <= WeightAll(args)
    requires (exists x :: x in args && !Printable(x)) ==> Weights(PrintAll(args)) < WeightAll(args)
    ensures Loses(Call(name, args))
  {
    hide IsPlain;
    hide Keyword;
    hide RawTok;
    NameWeight(name);
    assert Print(Call(name, args)) == [RawTok(name), TOpenParen] + PrintAll(args) + [TCloseParen];
    hide Print;
    hide PrintAll;
    hide WeightAll;
    WeightsJoin([RawTok(name), TOpenParen] + PrintAll(args), [TCloseParen]);
    WeightsJoin([RawTok(name), TOpenParen], PrintAll(args));
    WeightsTwo([RawTok(name), TOpenParen]);
  }

  lemma {:induction false} PrintLoses(e: Expr)
    requires WholeTimes(e)
    ensures Loses(e)
    decreases e, 1
  {
    hide Loses;
    match e
    case Lit(lit) => LiteralLoses(lit);
    case Ref(name) => NameLoses(name);
    case AbsRef(name) => NameLoses(name);
    case Select(e1, name) => PrintLoses(e1); SelectLoses(e1, name);
    case Paren(e1) => PrintLoses(e1); ParenLoses(e1);
    case Un(op, e1) => PrintLoses(e1); UnaryLoses(op, e1);
    case Bin(op, l, r) => PrintLoses(l); PrintLoses(r); BinLoses(op, l, r);
    case Subscript(e1, i) => PrintLoses(e1); PrintLoses(i); SubscriptLoses(e1, i);
    case Cond(c, t, f) => PrintLoses(c); PrintLoses(t); PrintLoses(f); CondLoses(c, t, f);
    case Call(name, args) => AllLose(args); CallLoses(name, args);
    case List(elems) => AllLose(elems); ListLoses(elems);
    case Ad(attrs) => AttrsLose(attrs); AdLoses(attrs);
  }

  lemma NameLoses(name: string)
    ensures Loses(Ref(name)) && Loses(AbsRef(name))
  {
    NameWeight(name);
    hide Keyword;
    hide NameTok;
    var t := NameTok(name);
    assert [t][1..] == [];
    WeightsTwo([TDot, t]);
  }

  lemma {:induction false} ParenLoses(e: Expr)
    requires Loses(e)
    ensures Loses(Paren(e))
  {
    Brackets(TOpenParen, Print(e), TCloseParen);
  }

  lemma {:induction false} BinLoses(op: BinOp, l: Expr, r: Expr)
    requires Loses(l) && Loses(r)
    ensures Loses(Bin(op, l, r))
  {
    Joins3(Print(l), TOp(op), Print(r));
  }

  lemma {:induction false} ListLoses(elems: seq<Expr>)
    requires Weights(PrintAll(elems)) <= WeightAll(elems)
    requires (exists x :: x in elems && !Printable(x)) ==> Weights(PrintAll(elems)) < WeightAll(elems)
    ensures Loses(List(elems))
  {
    assert Print(List(elems)) == [TOpenBrace] + PrintAll(elems) + [TCloseBrace];
    Brackets(TOpenBrace, PrintAll(elems), TCloseBrace);
  }

  lemma {:induction false} AdLoses(attrs: seq<Attr>)
    requires Weights(PrintAttrs(attrs)) <= WeightAttrs(attrs)
    requires (exists a :: a in attrs && !(Keyword(a.name).None? && Printable(a.e))) ==>
      Weights(PrintAttrs(attrs)) < WeightAttrs(attrs)
    ensures Loses(Ad(attrs))
  {
    hide Keyword;
    assert Print(Ad(attrs)) == [TOpenBox] + PrintAttrs(attrs) + [TCloseBox];
    Brackets(TOpenBox, PrintAttrs(attrs), TCloseBox);
  }

  lemma {:induction false} AllLose(es: seq<Expr>)
    requires forall x :: x in es ==> WholeTimes(x)
    ensures Weights(PrintAll(es)) <= WeightAll(es)
    ensures (exists x :: x in es && !Printable(x)) ==> Weights(PrintAll(es)) < WeightAll(es)
    decreases es, 0
  {
    hide Printable;
    hide WholeTimes;
    hide Print;
    hide Weight;
    if es != [] {
      PrintLoses(es[0]);
      AllLose(es[1..]);
      assert es == [es[0]] + es[1..];
      if |es| > 1 { Joins3(Print(es[0]), TComma, PrintAll(es[1..])); }
    }
  }

  lemma {:induction false} AttrsLose(attrs: seq<Attr>)
    requires forall a :: a in attrs ==> WholeTimes(a.e)
    ensures Weights(PrintAttrs(attrs)) <= WeightAttrs(attrs)
    ensures (exists a :: a in attrs && !(Keyword(a.name).None? && Printable(a.e))) ==>
      Weights(PrintAttrs(attrs)) < WeightAttrs(attrs)
    decreases attrs, 0
  {
    hide Printable;
    hide WholeTimes;
    hide Print;
    hide Weight;
    hide Keyword;
    hide NameTok;
    if attrs != [] {
      var a := attrs[0];
      PrintLoses(a.e);
      AttrsLose(attrs[1..]);
      NameWeight(a.name);
      assert attrs == [a] + attrs[1..];
      var first := [NameTok(a.name), TAssign] + Print(a.e);
      WeightsJoin([NameTok(a.name), TAssign], Print(a.e));
      WeightsTwo([NameTok(a.name), TAssign]);
      if |attrs| > 1 { Joins3(first, TSemi, PrintAttrs(attrs[1..])); }
    }
  }

  /**
   The printed text of a tree, followed by a token that does not go on with an
   expression, is read back as that tree exactly when the grammar can build the
   tree and its text still spells it.
   */
  lemma {:induction false} RoundTripExactly(e: Expr, s: seq<Tok>)
    requires WholeTimes(e) && Stops(0, s)
    ensures ParseExpression(Print(e) + s) == Ok(e, s) <==> Shaped(e) && Printable(e)
  {
    if Shaped(e) && Printable(e) { ExpressionReads(e, s); }
    if ParseExpression(Print(e) + s) == Ok(e, s) {
      ExpressionShaped(Print(e) + s);
      ExpressionBounded(Print(e) + s);
      WeightsJoin(Print(e), s);
      PrintLoses(e);
    }
  }

  /** A name spelled as a time function is plain and no reserved word. */
  lemma TimeNamePlain(name: string)
    requires Lower(name) == "abstime" || Lower(name) == "reltime"
    ensures IsPlain(name) && Keyword(name).None?
  {
    LowerKeeps(name);
    forall i | 0 <= i < |name| ensures IsAlpha(name[i]) { assert 'a' <= Lower(name)[i] <= 'z'; }
  }

  lemma {:induction false} LowerKeeps(s: string)
    ensures |Lower(s)| == |s| && forall i :: 0 <= i < |s| ==> Lower(s)[i] == LowerChar(s[i])
  {
    if s != "" {
      LowerKeeps(s[1..]);
      assert forall i :: 1 <= i < |s| ==> s[i] == s[1..][i - 1];
    }
  }

  /**
   The family of calls that do not come back: `absTime` and `relTime` of a
   string literal, in any case, are read as the literal that they make.
   */
  lemma {:induction false} TimeCallsEvaluated(name: string, x: string, s: seq<Tok>)
    requires (Lower(name) == "abstime" || Lower(name) == "reltime") && Stops(0, s)
    ensures var e, p := Call(name, [Lit(LStr(x))]), ParseExpression(Print(Call(name, [Lit(LStr(x))])) + s);
      && Printable(e) && WholeTimes(e) && p.Ok? && p.rest == s && p.tree.Lit?
      && (Lower(name) == "abstime" ==> p.tree.lit == LAbsTime(x))
      && (Lower(name) == "reltime" ==> p.tree.lit == LError || p.tree.lit.LRelTime?)
  {
    hide *;
    var args := [Lit(LStr(x))];
    TimeCallMakes(name, x);
    TimeNamePlain(name);
    PlainCallPrintable(name, x);
    PrintCall(name, args, s);
    var rest := [TStr(x), TCloseParen] + s;
    var ts := [TIdent(name), TOpenParen] + rest;
    TextArgumentPrints(x, s);
    TextArgumentReads(x, s);
    PrimaryCall(name, rest, args, s);
    TimeCallLifts(ts, MakeCall(name, args), s);
  }

  lemma TimeCallMakes(name: string, x: string)
    requires Lower(name) == "abstime" || Lower(name) == "reltime"
    ensures var e := MakeCall(name, [Lit(LStr(x))]);
      && e.Lit?
      && (Lower(name) == "abstime" ==> e.lit == LAbsTime(x))
      && (Lower(name) == "reltime" ==> e.lit == LError || e.lit.LRelTime?)
  {
    hide Lower;
    hide RelativeTime.MakeRelTime;
  }

  lemma PlainCallPrintable(name: string, x: string)
    requires IsPlain(name) && Keyword(name).None?
    ensures Printable(Call(name, [Lit(LStr(x))])) && WholeTimes(Call(name, [Lit(LStr(x))]))
  {
    hide IsPlain;
    hide Keyword;
    assert Printable(Lit(LStr(x))) && WholeTimes(Lit(LStr(x)));
  }

  lemma TextArgumentPrints(x: string, s: seq<Tok>)
    ensures PrintAll([Lit(LStr(x))]) + ([TCloseParen] + s) == [TStr(x), TCloseParen] + s
  {
    assert PrintAll([Lit(LStr(x))]) == [TStr(x)];
    hide *;
    assert [TStr(x)] + ([TCloseParen] + s) == [TStr(x), TCloseParen] + s;
  }

  lemma TimeCallLifts(ts: seq<Tok>, e: Expr, s: seq<Tok>)
    requires ts != [] && ts[0].TIdent? && Stops(0, s) && ParsePrimary(ts) == Ok(e, s)
    ensures ParseExpression(ts) == Ok(e, s)
  {
    hide ParsePrimary;
    hide ParseLevel;
    hide ParseExpression;
    PrimaryReadsAt(1, ts, e, s);
    ExpressionPlain(ts, s);
  }

  /**
   A full parse rejects what follows the printed tree, except after a
   conditional: the check for the end of the input is skipped there.
   */
  lemma {:induction false} FullParseTrailing(e: Expr, s: seq<Tok>)
    requires Good(e) && Stops(0, s)
    ensures FullParse(Print(e) + s) == if s == [] || e.Cond? then Ok(e, s) else Fail
  {
    ExpressionReads(e, s);
    hide ParseExpression;
    hide Print;
  }
}
