/**
 The parser and the printer undo each other at token level.

 `Shaped` are the trees the grammar can build, `Printable` those that the
 printed text still spells.  A tree comes back from its text exactly when it is
 both.
 */
module RoundTrip {
  import opened Values
  import opened Syntax
  import RelativeTime

  // ---------- trees the grammar builds ----------

  /** The grammar level of a tree: 0 conditional, 1..10 binary, 11 unary, 12 postfix, 13 primary. */
  function Rank(e: Expr): nat {
    match e
    case Cond(_, _, _) => 0
    case Bin(op, _, _) => Level(op)
    case Un(_, _) => 11
    case Select(_, _) => 12
    case Subscript(_, _) => 12
    case _ => 13
  }

  predicate DistinctNames(attrs: seq<Attr>) {
    forall i, j :: 0 <= i < j < |attrs| ==> Lower(attrs[i].name) != Lower(attrs[j].name)
  }

  predicate Shaped(e: Expr)
    decreases e
  {
    match e
    case Lit(_) => true
    case Ref(_) => true
    case AbsRef(_) => true
    case Select(e1, _) => Shaped(e1) && Rank(e1) >= 12
    case Paren(e1) => Shaped(e1)
    case Un(_, e1) => Shaped(e1) && Rank(e1) >= 11
    case Bin(op, l, r) => Shaped(l) && Rank(l) >= Level(op) && Shaped(r) && Rank(r) > Level(op)
    case Subscript(e1, i) => Shaped(e1) && Rank(e1) >= 12 && Shaped(i)
    case Cond(c, t, f) => Shaped(c) && Rank(c) >= 1 && Shaped(t) && Shaped(f)
    case Call(name, args) => !IsTimeCall(name, args) && forall x :: x in args ==> Shaped(x)
    case List(elems) => forall x :: x in elems ==> Shaped(x)
    case Ad(attrs) => DistinctNames(attrs) && forall a :: a in attrs ==> a.name != "" && Shaped(a.e)
  }

  predicate ShapedFrom(k: nat, p: Parsed) {
    p.Ok? ==> Shaped(p.tree) && Rank(p.tree) >= k
  }

  lemma {:induction false} InsertKeepsAd(attrs: seq<Attr>, name: string, e: Expr)
    requires Shaped(Ad(attrs)) && name != "" && Shaped(e)
    ensures Shaped(Ad(InsertAttr(attrs, name, e)))
    ensures forall a :: a in InsertAttr(attrs, name, e) ==>
      Lower(a.name) == Lower(name) || exists b :: b in attrs && b.name == a.name
  {
    if attrs != [] && Lower(attrs[0].name) != Lower(name) {
      InsertKeepsAd(attrs[1..], name, e);
    }
  }

  // Every tree the parser returns is shaped.

  lemma {:induction false} ExpressionShaped(ts: seq<Tok>)
    ensures ShapedFrom(0, ParseExpression(ts))
    decreases |ts|, 15
  {
    LevelShaped(1, ts);
    var p := ParseLevel(1, ts);
    if p.Ok? && Next(p.rest, TQMark) {
      ExpressionShaped(p.rest[1..]);
      var m := ParseExpression(p.rest[1..]);
      if m.Ok? && Next(m.rest, TColon) { ExpressionShaped(m.rest[1..]); }
    }
  }

  lemma {:induction false} LevelShaped(k: nat, ts: seq<Tok>)
    requires 1 <= k <= 11
    ensures ShapedFrom(k, ParseLevel(k, ts))
    decreases |ts|, 14 - k
  {
    if k == 11 {
      UnaryShaped(ts);
    } else {
      LevelShaped(k + 1, ts);
      var p := ParseLevel(k + 1, ts);
      if p.Ok? { OperatorsShaped(k, p.tree, p.rest); }
    }
  }

  lemma {:induction false} OperatorsShaped(k: nat, left: Expr, ts: seq<Tok>)
    requires 1 <= k <= 10 && Shaped(left) && Rank(left) >= k
    ensures ShapedFrom(k, ParseOperators(k, left, ts))
    decreases |ts|, 0
  {
    if ts != [] && ts[0].TOp? && Level(ts[0].op) == k {
      LevelShaped(k + 1, ts[1..]);
      var p := ParseLevel(k + 1, ts[1..]);
      if p.Ok? { OperatorsShaped(k, Bin(ts[0].op, left, p.tree), p.rest); }
    }
  }

  lemma {:induction false} UnaryShaped(ts: seq<Tok>)
    ensures ShapedFrom(11, ParseUnary(ts))
    decreases |ts|, 2
  {
    if ts != [] && UnaryOf(ts[0]).Some? {
      UnaryShaped(ts[1..]);
    } else {
      PrimaryShaped(ts);
      var p := ParsePrimary(ts);
      if p.Ok? { SuffixesShaped(p.tree, p.rest); }
    }
  }

  lemma {:induction false} SuffixesShaped(left: Expr, ts: seq<Tok>)
    requires Shaped(left) && Rank(left) >= 12
    ensures ShapedFrom(12, ParseSuffixes(left, ts))
    decreases |ts|, 0
  {
    if Next(ts, TOpenBox) {
      ExpressionShaped(ts[1..]);
      var p := ParseExpression(ts[1..]);
      if p.Ok? && Next(p.rest, TCloseBox) { SuffixesShaped(Subscript(left, p.tree), p.rest[1..]); }
    } else if Next(ts, TDot) && |ts| > 1 && ts[1].TIdent? {
      SuffixesShaped(Select(left, ts[1].name), ts[2..]);
    }
  }

  lemma CallShaped(name: string, args: seq<Expr>)
    requires forall x :: x in args ==> Shaped(x)
    ensures Shaped(MakeCall(name, args)) && Rank(MakeCall(name, args)) == 13
  {
    hide Lower;
    hide RelativeTime.MakeRelTime;
  }

  lemma {:induction false} PrimaryShaped(ts: seq<Tok>)
    ensures ShapedFrom(13, ParsePrimary(ts))
    decreases |ts|, 0
  {
    hide MakeCall;
    if ts != [] {
      match ts[0]
      case TIdent(name) =>
        if Next(ts[1..], TOpenParen) {
          AllShaped(TCloseParen, ts[2..]);
          var a := ParseAll(TCloseParen, ts[2..]);
          if a.OkAll? { CallShaped(name, a.trees); }
        }
      case TOpenParen => ExpressionShaped(ts[1..]);
      case TOpenBox => AttrsShaped([], ts[1..], true);
      case TOpenBrace => AllShaped(TCloseBrace, ts[1..]);
      case _ =>
    }
  }

  lemma {:induction false} AllShaped(close: Tok, ts: seq<Tok>)
    ensures ParseAll(close, ts).OkAll? ==> forall x :: x in ParseAll(close, ts).trees ==> Shaped(x)
    decreases |ts|, 17
  {
    if !Next(ts, close) { SomeShaped(close, ts); }
  }

  lemma {:induction false} SomeShaped(close: Tok, ts: seq<Tok>)
    ensures ParseSome(close, ts).OkAll? ==> forall x :: x in ParseSome(close, ts).trees ==> Shaped(x)
    decreases |ts|, 16
  {
    ExpressionShaped(ts);
    var p := ParseExpression(ts);
    if p.Ok? && Next(p.rest, TComma) { SomeShaped(close, p.rest[1..]); }
  }

  lemma {:induction false} AttrsShaped(attrs: seq<Attr>, ts: seq<Tok>, mayClose: bool)
    requires Shaped(Ad(attrs))
    ensures ShapedFrom(13, ParseAttrs(attrs, ts, mayClose))
    decreases |ts|, 16
  {
    if ts != [] && !(mayClose && ts[0] == TCloseBox) {
      if ts[0] == TSemi {
        AttrsShaped(attrs, ts[1..], false);
      } else if ts[0].TIdent? && Next(ts[1..], TAssign) {
        ExpressionShaped(ts[2..]);
        var p := ParseExpression(ts[2..]);
        if p.Ok? && ts[0].name != "" && (Next(p.rest, TSemi) || Next(p.rest, TCloseBox)) {
          InsertKeepsAd(attrs, ts[0].name, p.tree);
          AttrsShaped(InsertAttr(attrs, ts[0].name, p.tree), SkipSemis(p.rest), true);
        }
      }
    }
  }

  // ---------- trees the text still spells ----------

  predicate Printable(e: Expr)
    decreases e
  {
    match e
    case Lit(_) => true
    case Ref(name) => Keyword(name).None?
    case AbsRef(name) => Keyword(name).None?
    case Select(e1, name) => Printable(e1) && !EndsInInteger(e1) && IsPlain(name) && Keyword(name).None?
    case Paren(e1) => Printable(e1)
    case Un(op, e1) => Printable(e1) && !(op == UMinus && StartsWithDigit(e1))
    case Bin(_, l, r) => Printable(l) && Printable(r)
    case Subscript(e1, i) => Printable(e1) && Printable(i)
    case Cond(c, t, f) => Printable(c) && Printable(t) && Printable(f)
    case Call(name, args) => IsPlain(name) && Keyword(name).None? && forall x :: x in args ==> Printable(x)
    case List(elems) => forall x :: x in elems ==> Printable(x)
    case Ad(attrs) => forall a :: a in attrs ==> Keyword(a.name).None? && Printable(a.e)
  }

  /** The last token of the text is an integer without a scale factor. */
  predicate EndsInInteger(e: Expr) {
    var ts := Print(e);
    ts != [] && ts[|ts| - 1].TInt? && ts[|ts| - 1].f.NoFactor?
  }

  /** Times are relative, of whole seconds below 2^31; other times are not modelled as text. */
  predicate WholeTimes(e: Expr)
    decreases e
  {
    match e
    case Lit(LRelTime(secs)) => IsWholeTime(secs)
    case Lit(LAbsTime(_)) => false
    case Lit(_) => true
    case Ref(_) => true
    case AbsRef(_) => true
    case Select(e1, _) => WholeTimes(e1)
    case Paren(e1) => WholeTimes(e1)
    case Un(_, e1) => WholeTimes(e1)
    case Bin(_, l, r) => WholeTimes(l) && WholeTimes(r)
    case Subscript(e1, i) => WholeTimes(e1) && WholeTimes(i)
    case Cond(c, t, f) => WholeTimes(c) && WholeTimes(t) && WholeTimes(f)
    case Call(_, args) => forall x :: x in args ==> WholeTimes(x)
    case List(elems) => forall x :: x in elems ==> WholeTimes(x)
    case Ad(attrs) => forall a :: a in attrs ==> WholeTimes(a.e)
  }

  predicate Good(e: Expr) {
    Shaped(e) && Printable(e) && WholeTimes(e)
  }

  /** `s` does not go on with an expression that was parsed at level `k`. */
  predicate Stops(k: nat, s: seq<Tok>) {
    s != [] ==>
      && (s[0].TOp? ==> Level(s[0].op) < k)
      && (s[0] == TQMark ==> k > 0)
      && s[0] != TOpenBox && s[0] != TDot && s[0] != TOpenParen
  }

  /** The first token of a postfix expression is neither a unary operator nor a closing token. */
  predicate Opens(t: Tok) {
    UnaryOf(t).None? && t != TCloseParen && t != TCloseBrace && t != TCloseBox
  }

  lemma NamesOpen(name: string)
    ensures Opens(NameTok(name)) && Opens(RawTok(name))
  {
    hide Lower;
  }

  lemma LiteralOpens(lit: Literal)
    ensures PrintLit(lit) != [] && Opens(PrintLit(lit)[0])
  {
    hide RelativeTime.RelTimeText;
  }

  lemma GlueHead(ts: seq<Tok>)
    requires ts != []
    ensures Glue(ts) != [] && (Opens(ts[0]) ==> Opens(Glue(ts)[0]))
    ensures Glue(ts)[0] == ts[0] || Glue(ts)[0].TInt?
  {
  }

  lemma DotAfterHead(ts: seq<Tok>)
    requires ts != []
    ensures DotAfter(ts) != []
    ensures DotAfter(ts)[0] == ts[0] || DotAfter(ts)[0] == TBad
  {
  }

  /** A printed tree is not empty and does not begin with a closing token. */
  lemma {:induction false} PrintNonEmpty(e: Expr)
    ensures Print(e) != []
    ensures Print(e)[0] != TCloseParen && Print(e)[0] != TCloseBrace
    ensures Rank(e) >= 12 && Shaped(e) ==> Opens(Print(e)[0])
    decreases e
  {
    hide NameTok;
    hide RawTok;
    hide PrintLit;
    hide Glue;
    hide DotAfter;
    match e
    case Lit(lit) => LiteralOpens(lit);
    case Ref(name) => NamesOpen(name);
    case AbsRef(name) =>
    case Select(e1, name) =>
      PrintNonEmpty(e1);
      DotAfterHead(Print(e1));
    case Paren(e1) =>
    case Un(op, e1) =>
      PrintNonEmpty(e1);
      GlueHead(Print(e1));
    case Bin(_, l, _) => PrintNonEmpty(l);
    case Subscript(e1, _) => PrintNonEmpty(e1);
    case Cond(c, _, _) => PrintNonEmpty(c);
    case Call(name, _) => NamesOpen(name);
    case List(_) =>
    case Ad(_) =>
  }

  // ---------- one step of each parsing function ----------

  lemma ExpressionPlain(ts: seq<Tok>, s: seq<Tok>)
    requires !Next(s, TQMark)
    ensures ParseLevel(1, ts).Ok? && ParseLevel(1, ts).rest == s ==> ParseExpression(ts) == ParseLevel(1, ts)
  {
    hide ParseLevel;
  }

  lemma ExpressionCond(ts: seq<Tok>, c: Expr, ts1: seq<Tok>, t: Expr, ts2: seq<Tok>, f: Expr, s: seq<Tok>)
    requires ParseLevel(1, ts) == Ok(c, [TQMark] + ts1)
    requires ParseExpression(ts1) == Ok(t, [TColon] + ts2)
    requires ParseExpression(ts2) == Ok(f, s)
    ensures ParseExpression(ts) == Ok(Cond(c, t, f), s)
  {
    assert ([TQMark] + ts1)[1..] == ts1 && ([TColon] + ts2)[1..] == ts2;
    hide ParseLevel;
  }

  lemma LevelStep(k: nat, ts: seq<Tok>, e: Expr, s: seq<Tok>)
    requires 1 <= k <= 10 && ParseLevel(k + 1, ts) == Ok(e, s)
    ensures ParseLevel(k, ts) == ParseOperators(k, e, s)
  {
    hide ParseOperators;
    hide ParseUnary;
  }

  lemma LevelUnary(ts: seq<Tok>)
    ensures ParseLevel(11, ts) == ParseUnary(ts)
  {
    hide ParseUnary;
  }

  lemma OperatorsStop(k: nat, left: Expr, s: seq<Tok>)
    requires 1 <= k <= 10 && Stops(k, s)
    ensures ParseOperators(k, left, s) == Ok(left, s)
  {
    hide ParseLevel;
  }

  lemma OperatorsStep(op: BinOp, left: Expr, ts: seq<Tok>, right: Expr, s: seq<Tok>)
    requires ParseLevel(Level(op) + 1, ts) == Ok(right, s)
    ensures ParseOperators(Level(op), left, [TOp(op)] + ts) == ParseOperators(Level(op), Bin(op, left, right), s)
  {
    assert ([TOp(op)] + ts)[1..] == ts;
    hide ParseLevel;
    hide Level;
  }

  lemma UnaryStep(op: UnOp, ts: seq<Tok>, e: Expr, s: seq<Tok>)
    requires ParseUnary(ts) == Ok(e, s)
    ensures ParseUnary([UnaryTok(op)] + ts) == Ok(Un(op, e), s)
  {
    assert ([UnaryTok(op)] + ts)[1..] == ts;
    hide ParsePostfix;
  }

  lemma UnaryPostfix(ts: seq<Tok>)
    requires ts != [] && UnaryOf(ts[0]).None?
    ensures ParseUnary(ts) == ParsePostfix(ts)
  {
    hide ParsePostfix;
  }

  lemma PostfixStep(ts: seq<Tok>, e: Expr, s: seq<Tok>)
    requires ParsePrimary(ts) == Ok(e, s)
    ensures ParsePostfix(ts) == ParseSuffixes(e, s)
  {
    hide ParsePrimary;
    hide ParseSuffixes;
  }

  lemma SuffixesStop(left: Expr, s: seq<Tok>)
    requires !Next(s, TOpenBox) && !Next(s, TDot)
    ensures ParseSuffixes(left, s) == Ok(left, s)
  {
    hide ParseExpression;
  }

  lemma SuffixSelect(left: Expr, name: string, s: seq<Tok>)
    ensures ParseSuffixes(left, [TDot, TIdent(name)] + s) == ParseSuffixes(Select(left, name), s)
  {
    assert ([TDot, TIdent(name)] + s)[2..] == s;
    hide ParseExpression;
  }

  lemma SuffixSubscript(left: Expr, ts: seq<Tok>, i: Expr, s: seq<Tok>)
    requires ParseExpression(ts) == Ok(i, [TCloseBox] + s)
    ensures ParseSuffixes(left, [TOpenBox] + ts) == ParseSuffixes(Subscript(left, i), s)
  {
    assert ([TOpenBox] + ts)[1..] == ts && ([TCloseBox] + s)[1..] == s;
    hide ParseExpression;
  }

  lemma PrimaryParen(ts: seq<Tok>, e: Expr, s: seq<Tok>)
    requires ParseExpression(ts) == Ok(e, [TCloseParen] + s)
    ensures ParsePrimary([TOpenParen] + ts) == Ok(Paren(e), s)
  {
    assert ([TOpenParen] + ts)[1..] == ts && ([TCloseParen] + s)[1..] == s;
    hide ParseExpression;
  }

  lemma PrimaryCall(name: string, ts: seq<Tok>, args: seq<Expr>, s: seq<Tok>)
    requires ParseAll(TCloseParen, ts) == OkAll(args, s)
    ensures ParsePrimary([TIdent(name), TOpenParen] + ts) == Ok(MakeCall(name, args), s)
  {
    var all := [TIdent(name), TOpenParen] + ts;
    assert all[1..][0] == TOpenParen && all[2..] == ts;
    hide ParseAll;
    hide MakeCall;
  }

  lemma PrimaryList(ts: seq<Tok>, es: seq<Expr>, s: seq<Tok>)
    requires ParseAll(TCloseBrace, ts) == OkAll(es, s)
    ensures ParsePrimary([TOpenBrace] + ts) == Ok(List(es), s)
  {
    assert ([TOpenBrace] + ts)[1..] == ts;
    hide ParseAll;
  }

  lemma PrimaryAd(ts: seq<Tok>)
    ensures ParsePrimary([TOpenBox] + ts) == ParseAttrs([], ts, true)
  {
    assert ([TOpenBox] + ts)[1..] == ts;
    hide ParseAttrs;
  }

  lemma PrimaryName(name: string, s: seq<Tok>)
    requires !Next(s, TOpenParen)
    ensures ParsePrimary([TIdent(name)] + s) == Ok(Ref(name), s)
    ensures ParsePrimary([TDot, TIdent(name)] + s) == Ok(AbsRef(name), s)
  {
    assert ([TIdent(name)] + s)[1..] == s && ([TDot, TIdent(name)] + s)[2..] == s;
    hide ParseAll;
  }

  lemma SomeLast(close: Tok, ts: seq<Tok>, e: Expr, s: seq<Tok>)
    requires close != TComma && ParseExpression(ts) == Ok(e, [close] + s)
    ensures ParseSome(close, ts) == OkAll([e], s)
  {
    assert ([close] + s)[1..] == s;
    hide ParseExpression;
  }

  lemma SomeMore(close: Tok, ts: seq<Tok>, e: Expr, ts1: seq<Tok>, es: seq<Expr>, s: seq<Tok>)
    requires ParseExpression(ts) == Ok(e, [TComma] + ts1) && ParseSome(close, ts1) == OkAll(es, s)
    ensures ParseSome(close, ts) == OkAll([e] + es, s)
  {
    assert ([TComma] + ts1)[1..] == ts1;
    hide ParseExpression;
  }

  lemma AttrsClose(attrs: seq<Attr>, s: seq<Tok>)
    ensures ParseAttrs(attrs, [TCloseBox] + s, true) == Ok(Ad(attrs), s)
  {
    assert ([TCloseBox] + s)[1..] == s;
    hide ParseExpression;
  }

  lemma AttrsStep(attrs: seq<Attr>, name: string, ts: seq<Tok>, e: Expr, s: seq<Tok>)
    requires name != "" && ParseExpression(ts) == Ok(e, s) && (Next(s, TSemi) || Next(s, TCloseBox))
    ensures ParseAttrs(attrs, [TIdent(name), TAssign] + ts, true)
         == ParseAttrs(InsertAttr(attrs, name, e), SkipSemis(s), true)
  {
    var all := [TIdent(name), TAssign] + ts;
    assert all[1..][0] == TAssign && all[2..] == ts;
    hide ParseExpression;
  }

  // ---------- the parts of a good tree and of its text ----------

  lemma GoodParts(e: Expr)
    requires Good(e)
    ensures e.Cond? ==> Good(e.c) && Rank(e.c) >= 1 && Good(e.t) && Good(e.f)
    ensures e.Bin? ==> Good(e.l) && Rank(e.l) >= Level(e.op) && Good(e.r) && Rank(e.r) > Level(e.op)
    ensures e.Un? ==> Good(e.e) && Rank(e.e) >= 11
    ensures e.Select? ==> Good(e.e) && Rank(e.e) >= 12
    ensures e.Subscript? ==> Good(e.e) && Rank(e.e) >= 12 && Good(e.i)
    ensures e.Paren? ==> Good(e.e)
  {
    hide Level;
    hide Keyword;
    hide IsPlain;
  }

  lemma GoodMembers(e: Expr)
    requires Good(e)
    ensures e.Call? ==> forall x :: x in e.args ==> Good(x)
    ensures e.List? ==> forall x :: x in e.elems ==> Good(x)
    ensures e.Ad? ==> forall a :: a in e.attrs ==> Good(a.e)
  {
    hide Keyword;
    hide IsPlain;
    hide IsTimeCall;
  }

  lemma Nested3(a: seq<Tok>, x: seq<Tok>, b: seq<Tok>, s: seq<Tok>)
    ensures a + x + b + s == a + (x + (b + s))
  {
  }

  lemma Nested4(a: seq<Tok>, x: seq<Tok>, b: seq<Tok>, y: seq<Tok>, s: seq<Tok>)
    ensures a + x + b + y + s == a + (x + (b + (y + s)))
  {
    Nested3(a, x, b, y + s);
    assert a + x + b + y + s == a + x + b + (y + s);
  }

  lemma {:induction false} PrintCond(c: Expr, t: Expr, f: Expr, s: seq<Tok>)
    ensures Print(Cond(c, t, f)) + s == Print(c) + ([TQMark] + (Print(t) + ([TColon] + (Print(f) + s))))
  {
    assert Print(Cond(c, t, f)) == Print(c) + [TQMark] + Print(t) + [TColon] + Print(f);
    hide Print;
    Nested4(Print(c), [TQMark], Print(t), [TColon], Print(f) + s);
    assert Print(c) + [TQMark] + Print(t) + [TColon] + Print(f) + s ==
      Print(c) + [TQMark] + Print(t) + [TColon] + (Print(f) + s);
  }

  lemma {:induction false} PrintBin(op: BinOp, l: Expr, r: Expr, s: seq<Tok>)
    ensures Print(Bin(op, l, r)) + s == Print(l) + ([TOp(op)] + (Print(r) + s))
  {
    assert Print(Bin(op, l, r)) == Print(l) + [TOp(op)] + Print(r);
    hide Print;
    Nested3(Print(l), [TOp(op)], Print(r), s);
  }

  lemma {:induction false} PrintUn(op: UnOp, e: Expr, s: seq<Tok>)
    requires Printable(Un(op, e))
    ensures Print(Un(op, e)) + s == [UnaryTok(op)] + (Print(e) + s)
  {
    assert Print(Un(op, e)) == [UnaryTok(op)] + Print(e);
    hide Print;
  }

  lemma PlainRaw(name: string)
    requires IsPlain(name) && Keyword(name).None?
    ensures RawTok(name) == TIdent(name)
  {
    hide Keyword;
  }

  lemma {:induction false} PrintSelect(e: Expr, name: string, s: seq<Tok>)
    requires Printable(Select(e, name))
    ensures Print(Select(e, name)) + s == Print(e) + ([TDot, TIdent(name)] + s)
  {
    PlainRaw(name);
    hide Keyword;
    hide IsPlain;
    hide RawTok;
    assert DotAfter(Print(e)) == Print(e) + [TDot];
    assert Print(Select(e, name)) == DotAfter(Print(e)) + [TIdent(name)];
    hide *;
    assert Print(e) + [TDot] + [TIdent(name)] + s == Print(e) + ([TDot, TIdent(name)] + s);
  }

  lemma {:induction false} PrintSubscript(e: Expr, i: Expr, s: seq<Tok>)
    ensures Print(Subscript(e, i)) + s == Print(e) + ([TOpenBox] + (Print(i) + ([TCloseBox] + s)))
  {
    assert Print(Subscript(e, i)) == Print(e) + [TOpenBox] + Print(i) + [TCloseBox];
    hide Print;
    Nested4(Print(e), [TOpenBox], Print(i), [TCloseBox], s);
  }

  lemma PrintBrackets(a: seq<Tok>, inner: seq<Tok>, close: Tok, s: seq<Tok>)
    ensures a + inner + [close] + s == a + (inner + ([close] + s))
  {
    Nested3(a, inner, [close], s);
  }

  lemma {:induction false} PrintAllStep(es: seq<Expr>, s: seq<Tok>)
    requires |es| > 1
    ensures PrintAll(es) + s == Print(es[0]) + ([TComma] + (PrintAll(es[1..]) + s))
  {
    assert PrintAll(es) == Print(es[0]) + [TComma] + PrintAll(es[1..]);
    hide Print;
    hide PrintAll;
    Nested3(Print(es[0]), [TComma], PrintAll(es[1..]), s);
  }

  // ---------- reading a printed tree ----------

  /** A primary expression that nothing goes on with reads as itself at every level. */
  lemma {:induction false} PrimaryReadsAt(k: nat, ts: seq<Tok>, e: Expr, s: seq<Tok>)
    requires 1 <= k <= 11 && Stops(0, s)
    requires ts != [] && UnaryOf(ts[0]).None? && ParsePrimary(ts) == Ok(e, s)
    ensures ParseLevel(k, ts) == Ok(e, s)
    decreases 11 - k
  {
    hide ParsePrimary;
    hide ParseLevel;
    if k == 11 {
      LevelUnary(ts);
      UnaryPostfix(ts);
      PostfixStep(ts, e, s);
      SuffixesStop(e, s);
    } else {
      PrimaryReadsAt(k + 1, ts, e, s);
      LevelStep(k, ts, e, s);
      OperatorsStop(k, e, s);
    }
  }

  lemma {:induction false} StringReads(k: nat, x: string, s: seq<Tok>)
    requires 1 <= k <= 11 && Stops(0, s)
    ensures ParseLevel(k, [TStr(x)] + s) == Ok(Lit(LStr(x)), s)
  {
    var ts := [TStr(x)] + s;
    assert ts[1..] == s;
    PrimaryReadsAt(k, ts, Lit(LStr(x)), s);
  }

  lemma TimeName()
    ensures Lower("relTime") == "reltime"
  {
    assert Lower("e") == "e";
    assert Lower("me") == "me";
    assert Lower("ime") == "ime";
    assert Lower("Time") == "time";
    assert Lower("lTime") == "ltime";
    assert Lower("elTime") == "eltime";
  }

  lemma TextArgumentReads(text: string, s: seq<Tok>)
    ensures ParseAll(TCloseParen, [TStr(text), TCloseParen] + s) == OkAll([Lit(LStr(text))], s)
  {
    hide ParseExpression;
    hide ParseSome;
    var s1 := [TCloseParen] + s;
    var arg := [TStr(text)] + s1;
    StringReads(1, text, s1);
    ExpressionPlain(arg, s1);
    SomeLast(TCloseParen, arg, Lit(LStr(text)), s);
    assert [TStr(text), TCloseParen] + s == arg;
  }

  lemma TimePrints(secs: real)
    requires IsWholeTime(secs)
    ensures PrintLit(LRelTime(secs)) ==
      [TIdent("relTime"), TOpenParen] + [TStr(RelativeTime.RelTimeText(secs.Floor)), TCloseParen]
  {
    hide RelativeTime.RelTimeText;
  }

  lemma TimeMade(text: string, secs: real)
    requires RelativeTime.MakeRelTime(text) == Some(secs)
    ensures MakeCall("relTime", [Lit(LStr(text))]) == Lit(LRelTime(secs))
  {
    TimeName();
    hide Lower;
    hide RelativeTime.MakeRelTime;
  }

  /** A relative time is printed as a call that the parser evaluates again. */
  lemma TimeReads(secs: real, s: seq<Tok>)
    requires IsWholeTime(secs)
    ensures ParsePrimary(PrintLit(LRelTime(secs)) + s) == Ok(Lit(LRelTime(secs)), s)
  {
    var text := RelativeTime.RelTimeText(secs.Floor);
    RelativeTime.RelTimeRoundTrip(secs.Floor);
    TimePrints(secs);
    assert secs.Floor as real == secs;
    hide *;
    TimeMade(text, secs);
    TextArgumentReads(text, s);
    PrimaryCall("relTime", [TStr(text), TCloseParen] + s, [Lit(LStr(text))], s);
    PrefixJoins([TIdent("relTime"), TOpenParen], [TStr(text), TCloseParen], s);
  }

  lemma PrefixJoins(a: seq<Tok>, b: seq<Tok>, c: seq<Tok>)
    ensures (a + b) + c == a + (b + c)
  {
  }

  lemma {:induction false} ExpressionReads(e: Expr, s: seq<Tok>)
    requires Good(e) && Stops(0, s)
    ensures ParseExpression(Print(e) + s) == Ok(e, s)
    decreases e, 40
  {
    GoodParts(e);
    hide Good;
    hide Print;
    hide ParseExpression;
    hide ParseLevel;
    if e.Cond? {
      var s2 := [TColon] + (Print(e.f) + s);
      var s1 := [TQMark] + (Print(e.t) + s2);
      PrintCond(e.c, e.t, e.f, s);
      LevelDone(e.c, 1, s1);
      ExpressionReads(e.t, s2);
      ExpressionReads(e.f, s);
      ExpressionCond(Print(e) + s, e.c, Print(e.t) + s2, e.t, Print(e.f) + s, e.f, s);
    } else {
      LevelDone(e, 1, s);
      ExpressionPlain(Print(e) + s, s);
    }
  }

  lemma {:induction false} LevelDone(e: Expr, k: nat, s: seq<Tok>)
    requires Good(e) && 1 <= k <= 11 && Rank(e) >= k && Stops(k, s)
    ensures ParseLevel(k, Print(e) + s) == Ok(e, s)
    decreases e, 2 * (13 - k) + 1
  {
    hide Good;
    hide Print;
    hide ParseLevel;
    hide ParseOperators;
    hide ParseUnary;
    if k == 11 {
      UnaryReads(e, s);
      LevelUnary(Print(e) + s);
    } else {
      LevelReads(e, k, s);
      OperatorsStop(k, e, s);
    }
  }

  /** Before the loop of a level goes on, the tree printed so far has been read. */
  lemma {:induction false} LevelReads(e: Expr, k: nat, s: seq<Tok>)
    requires Good(e) && 1 <= k <= 10 && Rank(e) >= k && Stops(k + 1, s)
    ensures ParseLevel(k, Print(e) + s) == ParseOperators(k, e, s)
    decreases e, 2 * (13 - k)
  {
    GoodParts(e);
    hide Good;
    hide Print;
    hide ParseLevel;
    hide ParseOperators;
    if Rank(e) == k {
      var s1 := [TOp(e.op)] + (Print(e.r) + s);
      PrintBin(e.op, e.l, e.r, s);
      LevelReads(e.l, k, s1);
      LevelDone(e.r, k + 1, s);
      OperatorsStep(e.op, e.l, Print(e.r) + s, e.r, s);
    } else {
      LevelDone(e, k + 1, s);
      LevelStep(k, Print(e) + s, e, s);
    }
  }

  lemma {:induction false} UnaryReads(e: Expr, s: seq<Tok>)
    requires Good(e) && Rank(e) >= 11 && Stops(11, s)
    ensures ParseUnary(Print(e) + s) == Ok(e, s)
    decreases e, 3
  {
    GoodParts(e);
    hide ParseUnary;
    hide ParsePostfix;
    hide ParseSuffixes;
    if e.Un? {
      PrintUn(e.uop, e.e, s);
      hide Good;
      hide Print;
      UnaryReads(e.e, s);
      UnaryStep(e.uop, Print(e.e) + s, e.e, s);
    } else {
      PrintNonEmpty(e);
      hide Good;
      hide Print;
      assert (Print(e) + s)[0] == Print(e)[0];
      UnaryPostfix(Print(e) + s);
      PostfixReads(e, s);
      SuffixesStop(e, s);
    }
  }

  lemma {:induction false} PostfixReads(e: Expr, s: seq<Tok>)
    requires Good(e) && Rank(e) >= 12 && !Next(s, TOpenParen)
    ensures ParsePostfix(Print(e) + s) == ParseSuffixes(e, s)
    decreases e, 2
  {
    GoodParts(e);
    hide ParsePostfix;
    hide ParseSuffixes;
    hide ParseExpression;
    hide ParsePrimary;
    if e.Select? {
      PrintSelect(e.e, e.name, s);
      hide Good;
      hide Print;
      PostfixReads(e.e, [TDot, TIdent(e.name)] + s);
      SuffixSelect(e.e, e.name, s);
    } else if e.Subscript? {
      hide Good;
      hide Print;
      var s2 := [TCloseBox] + s;
      PrintSubscript(e.e, e.i, s);
      PostfixReads(e.e, [TOpenBox] + (Print(e.i) + s2));
      ExpressionReads(e.i, s2);
      SuffixSubscript(e.e, Print(e.i) + s2, e.i, s);
    } else {
      hide Good;
      hide Print;
      PrimaryReads(e, s);
      PostfixStep(Print(e) + s, e, s);
    }
  }

  lemma {:induction false} PrimaryReads(e: Expr, s: seq<Tok>)
    requires Good(e) && Rank(e) == 13 && !Next(s, TOpenParen)
    ensures ParsePrimary(Print(e) + s) == Ok(e, s)
    decreases e, 1
  {
    GoodParts(e);
    GoodMembers(e);
    hide ParsePrimary;
    hide ParseExpression;
    hide ParseAll;
    hide ParseAttrs;
    hide PrintLit;
    hide PrintAll;
    hide PrintAttrs;
    hide Keyword;
    match e
    case Lit(lit) => LiteralReads(lit, s);
    case Ref(name) => PrimaryName(name, s);
    case AbsRef(name) => PrimaryName(name, s);
    case Paren(e1) =>
      var s1 := [TCloseParen] + s;
      PrintBrackets([TOpenParen], Print(e1), TCloseParen, s);
      ExpressionReads(e1, s1);
      PrimaryParen(Print(e1) + s1, e1, s);
    case Call(name, args) => CallReads(name, args, s);
    case List(elems) =>
      PrintBrackets([TOpenBrace], PrintAll(elems), TCloseBrace, s);
      AllRead(elems, TCloseBrace, s);
      PrimaryList(PrintAll(elems) + ([TCloseBrace] + s), elems, s);
    case Ad(attrs) =>
      PrintBrackets([TOpenBox], PrintAttrs(attrs), TCloseBox, s);
      assert [] + attrs == attrs;
      AttrsRead([], attrs, s);
      PrimaryAd(PrintAttrs(attrs) + ([TCloseBox] + s));
  }

  lemma LiteralReads(lit: Literal, s: seq<Tok>)
    requires !lit.LAbsTime? && (lit.LRelTime? ==> IsWholeTime(lit.secs))
    ensures ParsePrimary(PrintLit(lit) + s) == Ok(Lit(lit), s)
  {
    if lit.LRelTime? {
      TimeReads(lit.secs, s);
    } else {
      hide RelativeTime.RelTimeText;
      hide ParseAll;
      hide ParseAttrs;
      hide ParseExpression;
      assert (PrintLit(lit) + s)[1..] == s;
    }
  }

  lemma {:induction false} PrintCall(name: string, args: seq<Expr>, s: seq<Tok>)
    requires Printable(Call(name, args))
    ensures Print(Call(name, args)) + s == [TIdent(name), TOpenParen] + (PrintAll(args) + ([TCloseParen] + s))
  {
    PlainRaw(name);
    hide Keyword;
    hide IsPlain;
    hide RawTok;
    assert Print(Call(name, args)) == [TIdent(name), TOpenParen] + PrintAll(args) + [TCloseParen];
    PrintBrackets([TIdent(name), TOpenParen], PrintAll(args), TCloseParen, s);
  }

  lemma {:induction false} CallReads(name: string, args: seq<Expr>, s: seq<Tok>)
    requires Good(Call(name, args))
    ensures ParsePrimary(Print(Call(name, args)) + s) == Ok(Call(name, args), s)
    decreases args, 1
  {
    GoodMembers(Call(name, args));
    assert MakeCall(name, args) == Call(name, args);
    PrintCall(name, args, s);
    hide *;
    AllRead(args, TCloseParen, s);
    PrimaryCall(name, PrintAll(args) + ([TCloseParen] + s), args, s);
  }

  lemma {:induction false} AllRead(es: seq<Expr>, close: Tok, s: seq<Tok>)
    requires close == TCloseParen || close == TCloseBrace
    requires forall x :: x in es ==> Good(x)
    ensures ParseAll(close, PrintAll(es) + ([close] + s)) == OkAll(es, s)
    decreases es, 0, 1
  {
    hide ParseSome;
    hide Good;
    hide Print;
    var ts := PrintAll(es) + ([close] + s);
    if es == [] {
      assert ts == [close] + s && ts[1..] == s;
    } else {
      SomeRead(es, close, s);
      PrintNonEmpty(es[0]);
      assert ts[0] == Print(es[0])[0];
    }
  }

  lemma {:induction false} SomeRead(es: seq<Expr>, close: Tok, s: seq<Tok>)
    requires close == TCloseParen || close == TCloseBrace
    requires es != [] && forall x :: x in es ==> Good(x)
    ensures ParseSome(close, PrintAll(es) + ([close] + s)) == OkAll(es, s)
    decreases es, 0, 0
  {
    hide ParseSome;
    hide ParseExpression;
    hide Good;
    hide Print;
    var s1 := [close] + s;
    if |es| == 1 {
      ExpressionReads(es[0], s1);
      SomeLast(close, Print(es[0]) + s1, es[0], s);
      assert es == [es[0]];
    } else {
      hide PrintAll;
      var more := PrintAll(es[1..]) + s1;
      PrintAllStep(es, s1);
      ExpressionReads(es[0], [TComma] + more);
      SomeRead(es[1..], close, s);
      SomeMore(close, PrintAll(es) + s1, es[0], more, es[1..], s);
      assert es == [es[0]] + es[1..];
    }
  }

  lemma {:induction false} InsertAppends(attrs: seq<Attr>, name: string, e: Expr)
    requires forall a :: a in attrs ==> Lower(a.name) != Lower(name)
    ensures InsertAttr(attrs, name, e) == attrs + [Attr(name, e)]
  {
    if attrs != [] {
      InsertAppends(attrs[1..], name, e);
      assert attrs == [attrs[0]] + attrs[1..];
    }
  }

  lemma InsertNew(done: seq<Attr>, a: Attr, attrs: seq<Attr>)
    requires DistinctNames(done + ([a] + attrs))
    ensures InsertAttr(done, a.name, a.e) == done + [a]
  {
    var all := done + ([a] + attrs);
    forall b | b in done ensures Lower(b.name) != Lower(a.name) {
      var i :| 0 <= i < |done| && done[i] == b;
      assert all[i] == b && all[|done|] == a;
    }
    InsertAppends(done, a.name, a.e);
  }

  /** What stands after the value of the first attribute of `attrs`. */
  function AfterFirst(attrs: seq<Attr>, s: seq<Tok>): seq<Tok>
    requires attrs != []
  {
    if |attrs| == 1 then s else [TSemi] + (PrintAttrs(attrs[1..]) + s)
  }

  lemma AttrName(name: string)
    requires Keyword(name).None?
    ensures NameTok(name) == TIdent(name)
  {
    hide Keyword;
  }

  lemma {:induction false} PrintAttrsStep(attrs: seq<Attr>, s: seq<Tok>)
    requires attrs != [] && Keyword(attrs[0].name).None?
    ensures PrintAttrs(attrs) + s == [TIdent(attrs[0].name), TAssign] + (Print(attrs[0].e) + AfterFirst(attrs, s))
  {
    AttrName(attrs[0].name);
    hide NameTok;
    hide Keyword;
    hide Print;
    var head, body := [TIdent(attrs[0].name), TAssign], Print(attrs[0].e);
    if |attrs| == 1 {
      assert PrintAttrs(attrs) == head + body;
      assert head + body + s == head + (body + s);
    } else {
      assert PrintAttrs(attrs) == head + body + [TSemi] + PrintAttrs(attrs[1..]);
      Nested4(head, body, [TSemi], PrintAttrs(attrs[1..]), s);
    }
  }

  lemma {:induction false} AfterFirstSkips(attrs: seq<Attr>, s: seq<Tok>)
    requires attrs != [] && Next(s, TCloseBox)
    requires forall a :: a in attrs ==> Keyword(a.name).None?
    ensures SkipSemis(AfterFirst(attrs, s)) == PrintAttrs(attrs[1..]) + s
  {
    hide Keyword;
    hide Print;
    var rest := PrintAttrs(attrs[1..]) + s;
    if |attrs| == 1 {
      assert rest == s;
    } else {
      PrintAttrsStep(attrs[1..], s);
      hide PrintAttrs;
      assert ([TSemi] + rest)[1..] == rest;
    }
  }

  lemma {:induction false} AttrsRead(done: seq<Attr>, attrs: seq<Attr>, s: seq<Tok>)
    requires DistinctNames(done + attrs)
    requires forall a :: a in attrs ==> a.name != "" && Keyword(a.name).None? && Good(a.e)
    ensures ParseAttrs(done, PrintAttrs(attrs) + ([TCloseBox] + s), true) == Ok(Ad(done + attrs), s)
    decreases attrs, 0
  {
    hide ParseAttrs;
    hide ParseExpression;
    hide InsertAttr;
    hide Keyword;
    hide Good;
    hide Print;
    var s1 := [TCloseBox] + s;
    if attrs == [] {
      assert PrintAttrs(attrs) + s1 == s1 && done + attrs == done;
      AttrsClose(done, s);
    } else {
      var a := attrs[0];
      assert attrs == [a] + attrs[1..];
      PrintAttrsStep(attrs, s1);
      AfterFirstSkips(attrs, s1);
      hide PrintAttrs;
      AttrRead(done, a, AfterFirst(attrs, s1), attrs[1..]);
      assert (done + [a]) + attrs[1..] == done + attrs;
      AttrsRead(done + [a], attrs[1..], s);
    }
  }

  lemma {:induction false} AttrRead(done: seq<Attr>, a: Attr, s: seq<Tok>, attrs: seq<Attr>)
    requires DistinctNames(done + ([a] + attrs))
    requires a.name != "" && Good(a.e) && (Next(s, TSemi) || Next(s, TCloseBox))
    ensures ParseAttrs(done, [TIdent(a.name), TAssign] + (Print(a.e) + s), true)
         == ParseAttrs(done + [a], SkipSemis(s), true)
    decreases a, 1
  {
    hide ParseAttrs;
    hide ParseExpression;
    hide Good;
    hide Print;
    ExpressionReads(a.e, s);
    AttrsStep(done, a.name, Print(a.e) + s, a.e, s);
    InsertNew(done, a, attrs);
  }
}
