/**
 Syntax trees of the ClassAd language, the tokens the lexer makes of them, the
 printer `ClassAdUnParser` and the grammar of `ClassAdParser`.
 */
module Syntax {
  import opened Values
  import RelativeTime

  // ---------- trees and tokens ----------

  datatype Factor = NoFactor | FactorB | FactorK | FactorM | FactorG | FactorT

  datatype Literal =
    | LUndefined
    | LError
    | LBool(b: bool)
    | LInt(i: int, f: Factor)
    | LStr(s: string)
    | LRelTime(secs: real)
    | LAbsTime(text: string) // what `MakeAbsTime` makes of the text, by calendar and time zone

  datatype Attr = Attr(name: string, e: Expr)

  /** An ad is the list of its attributes in the order the attribute table yields them. */
  datatype Expr =
    | Lit(lit: Literal)
    | Ref(name: string)
    | AbsRef(name: string)
    | Select(e: Expr, name: string)
    | Paren(e: Expr)
    | Un(uop: UnOp, e: Expr)
    | Bin(op: BinOp, l: Expr, r: Expr)
    | Subscript(e: Expr, i: Expr)
    | Cond(c: Expr, t: Expr, f: Expr)
    | Call(name: string, args: seq<Expr>)
    | List(elems: seq<Expr>)
    | Ad(attrs: seq<Attr>)

  /** `+` and `-` are the tokens of Add and Sub wherever they stand. */
  datatype Tok =
    | TInt(i: int, f: Factor)
    | TStr(s: string)
    | TIdent(name: string)
    | TBool(b: bool)
    | TUndefined
    | TErrorValue
    | TOp(op: BinOp)
    | TNot
    | TBitNot
    | TQMark
    | TColon
    | TComma
    | TSemi
    | TAssign
    | TDot
    | TOpenBox
    | TCloseBox
    | TOpenParen
    | TCloseParen
    | TOpenBrace
    | TCloseBrace
    | TBad             // LEX_TOKEN_ERROR
    | TRaw(text: string) // text whose tokens are not modelled

  /** `PrecedenceLevel` of the binary operators. */
  function Level(op: BinOp): nat
    ensures 1 <= Level(op) <= 10
  {
    match op
    case Or => 1
    case And => 2
    case BitOr => 3
    case BitXor => 4
    case BitAnd => 5
    case Eq => 6
    case Ne => 6
    case Is => 6
    case Isnt => 6
    case Lt => 7
    case Le => 7
    case Gt => 7
    case Ge => 7
    case Shl => 8
    case Shr => 8
    case UShr => 8
    case Add => 9
    case Sub => 9
    case Mul => 10
    case Div => 10
    case Mod => 10
  }

  function UnaryTok(op: UnOp): Tok {
    match op
    case UPlus => TOp(Add)
    case UMinus => TOp(Sub)
    case Not => TNot
    case BitNot => TBitNot
  }

  function UnaryOf(t: Tok): Option<UnOp> {
    match t
    case TOp(Add) => Some(UPlus)
    case TOp(Sub) => Some(UMinus)
    case TNot => Some(UnOp.Not)
    case TBitNot => Some(UnOp.BitNot)
    case _ => None
  }

  // ---------- the printer ----------

  predicate IsAlpha(c: char) {
    'a' <= c <= 'z' || 'A' <= c <= 'Z' || c == '_'
  }

  /** The complement of `identifierNeedsQuoting`. */
  predicate IsPlain(name: string) {
    && name != "" && IsAlpha(name[0])
    && forall i :: 0 <= i < |name| ==> IsAlpha(name[i]) || '0' <= name[i] <= '9'
  }

  /** The token a reserved word is read as, in any mix of cases. */
  function Keyword(name: string): Option<Tok> {
    var w := Lower(name);
    if w == "true" then Some(TBool(true))
    else if w == "false" then Some(TBool(false))
    else if w == "undefined" then Some(TUndefined)
    else if w == "error" then Some(TErrorValue)
    else if w == "is" then Some(TOp(Is))
    else if w == "isnt" then Some(TOp(Isnt))
    else None
  }

  /** An attribute name, written with quotes when it is not plain. */
  function NameTok(name: string): Tok {
    if Keyword(name).Some? then Keyword(name).value else TIdent(name)
  }

  /** A selected attribute or a function name, always written without quotes. */
  function RawTok(name: string): Tok {
    if IsPlain(name) then NameTok(name) else TRaw(name)
  }

  predicate IsWholeTime(secs: real) {
    secs == secs.Floor as real && RelativeTime.FitsInt(secs.Floor)
  }

  function PrintLit(lit: Literal): seq<Tok> {
    match lit
    case LUndefined => [TUndefined]
    case LError => [TErrorValue]
    case LBool(b) => [TBool(b)]
    case LInt(i, f) => [TInt(i, f)]
    case LStr(s) => [TStr(s)]
    case LRelTime(secs) =>
      if IsWholeTime(secs) then
        [TIdent("relTime"), TOpenParen, TStr(RelativeTime.RelTimeText(secs.Floor)), TCloseParen]
      else [TRaw("relTime")]
    case LAbsTime(_) => [TRaw("absTime")]
  }

  /** The text of the tree begins with a digit. */
  predicate StartsWithDigit(e: Expr) {
    match e
    case Lit(LInt(i, _)) => i >= 0
    case Select(e1, _) => StartsWithDigit(e1)
    case Bin(_, l, _) => StartsWithDigit(l)
    case Subscript(e1, _) => StartsWithDigit(e1)
    case Cond(c, _, _) => StartsWithDigit(c)
    case _ => false
  }

  /** A minus sign right before a digit is read as part of the number. */
  function Glue(ts: seq<Tok>): seq<Tok> {
    if ts != [] && ts[0].TInt? then [TInt(-ts[0].i, ts[0].f)] + ts[1..] else ts
  }

  /** A dot right after an integer without a scale factor spoils the number. */
  function DotAfter(ts: seq<Tok>): seq<Tok> {
    if ts != [] && ts[|ts| - 1].TInt? && ts[|ts| - 1].f.NoFactor? then ts[..|ts| - 1] + [TBad]
    else ts + [TDot]
  }

  /** The tokens that the lexer makes of what `Unparse` writes. */
  function Print(e: Expr): seq<Tok>
    decreases e, 1
  {
    match e
    case Lit(lit) => PrintLit(lit)
    case Ref(name) => [NameTok(name)]
    case AbsRef(name) => [TDot, NameTok(name)]
    case Select(e1, name) => DotAfter(Print(e1)) + [RawTok(name)]
    case Paren(e1) => [TOpenParen] + Print(e1) + [TCloseParen]
    case Un(op, e1) =>
      if op == UMinus && StartsWithDigit(e1) then Glue(Print(e1)) else [UnaryTok(op)] + Print(e1)
    case Bin(op, l, r) => Print(l) + [TOp(op)] + Print(r)
    case Subscript(e1, i) => Print(e1) + [TOpenBox] + Print(i) + [TCloseBox]
    case Cond(c, t, f) => Print(c) + [TQMark] + Print(t) + [TColon] + Print(f)
    case Call(name, args) => [RawTok(name), TOpenParen] + PrintAll(args) + [TCloseParen]
    case List(elems) => [TOpenBrace] + PrintAll(elems) + [TCloseBrace]
    case Ad(attrs) => [TOpenBox] + PrintAttrs(attrs) + [TCloseBox]
  }

  function PrintAll(es: seq<Expr>): seq<Tok>
    decreases es, 0
  {
    if es == [] then []
    else if |es| == 1 then Print(es[0])
    else Print(es[0]) + [TComma] + PrintAll(es[1..])
  }

  function PrintAttrs(attrs: seq<Attr>): seq<Tok>
    decreases attrs, 0
  {
    if attrs == [] then []
    else
      var first := [NameTok(attrs[0].name), TAssign] + Print(attrs[0].e);
      if |attrs| == 1 then first else first + [TSemi] + PrintAttrs(attrs[1..])
  }

  // ---------- the grammar ----------

  datatype Parsed = Fail | Ok(tree: Expr, rest: seq<Tok>)

  datatype ParsedAll = FailAll | OkAll(trees: seq<Expr>, rest: seq<Tok>)

  predicate Next(ts: seq<Tok>, t: Tok) {
    ts != [] && ts[0] == t
  }

  /** `evaluateFunction`: a time written as a string literal is made while parsing. */
  function MakeCall(name: string, args: seq<Expr>): Expr {
    if !IsTimeCall(name, args) then Call(name, args)
    else if Lower(name) == "abstime" then Lit(LAbsTime(args[0].lit.s))
    else
      match RelativeTime.MakeRelTime(args[0].lit.s)
      case None => Lit(LError)
      case Some(secs) => Lit(LRelTime(secs))
  }

  predicate IsTimeName(name: string) {
    Lower(name) == "abstime" || Lower(name) == "reltime"
  }

  /** `shouldEvaluateAtParseTime` */
  predicate IsTimeCall(name: string, args: seq<Expr>) {
    IsTimeName(name) && |args| == 1 && args[0].Lit? && args[0].lit.LStr?
  }

  /** `ClassAd::Insert`: names differ only up to case; the first spelling stays. */
  function InsertAttr(attrs: seq<Attr>, name: string, e: Expr): seq<Attr> {
    if attrs == [] then [Attr(name, e)]
    else if Lower(attrs[0].name) == Lower(name) then [Attr(attrs[0].name, e)] + attrs[1..]
    else [attrs[0]] + InsertAttr(attrs[1..], name, e)
  }

  /** `parseExpression` */
  function ParseExpression(ts: seq<Tok>): (r: Parsed)
    ensures r.Ok? ==> |r.rest| < |ts|
    decreases |ts|, 15
  {
    var p := ParseLevel(1, ts);
    if p.Fail? || !Next(p.rest, TQMark) then p
    else
      var m := ParseExpression(p.rest[1..]);
      if m.Fail? || !Next(m.rest, TColon) then Fail
      else
        var r := ParseExpression(m.rest[1..]);
        if r.Fail? then Fail else Ok(Cond(p.tree, m.tree, r.tree), r.rest)
  }

  /** The ten levels of left-associative binary operators, `||` at level 1 up to `*` at level 10. */
  function ParseLevel(k: nat, ts: seq<Tok>): (r: Parsed)
    requires 1 <= k <= 11
    ensures r.Ok? ==> |r.rest| < |ts|
    decreases |ts|, 14 - k
  {
    if k == 11 then ParseUnary(ts)
    else
      var p := ParseLevel(k + 1, ts);
      if p.Fail? then Fail else ParseOperators(k, p.tree, p.rest)
  }

  /** The loop of one level: `left` grows while the next operator is of this level. */
  function ParseOperators(k: nat, left: Expr, ts: seq<Tok>): (r: Parsed)
    requires 1 <= k <= 10
    ensures r.Ok? ==> |r.rest| <= |ts|
    decreases |ts|, 0
  {
    if ts != [] && ts[0].TOp? && Level(ts[0].op) == k then
      var p := ParseLevel(k + 1, ts[1..]);
      if p.Fail? then Fail else ParseOperators(k, Bin(ts[0].op, left, p.tree), p.rest)
    else Ok(left, ts)
  }

  /** `parseUnaryExpression` */
  function ParseUnary(ts: seq<Tok>): (r: Parsed)
    ensures r.Ok? ==> |r.rest| < |ts|
    decreases |ts|, 2
  {
    if ts != [] && UnaryOf(ts[0]).Some? then
      var p := ParseUnary(ts[1..]);
      if p.Fail? then Fail else Ok(Un(UnaryOf(ts[0]).value, p.tree), p.rest)
    else ParsePostfix(ts)
  }

  /** `parsePostfixExpression` */
  function ParsePostfix(ts: seq<Tok>): (r: Parsed)
    ensures r.Ok? ==> |r.rest| < |ts|
    decreases |ts|, 1
  {
    var p := ParsePrimary(ts);
    if p.Fail? then Fail else ParseSuffixes(p.tree, p.rest)
  }

  function ParseSuffixes(left: Expr, ts: seq<Tok>): (r: Parsed)
    ensures r.Ok? ==> |r.rest| <= |ts|
    decreases |ts|, 0
  {
    if Next(ts, TOpenBox) then
      var p := ParseExpression(ts[1..]);
      if p.Fail? || !Next(p.rest, TCloseBox) then Fail
      else ParseSuffixes(Subscript(left, p.tree), p.rest[1..])
    else if Next(ts, TDot) then
      if |ts| > 1 && ts[1].TIdent? then ParseSuffixes(Select(left, ts[1].name), ts[2..]) else Fail
    else Ok(left, ts)
  }

  /** `parsePrimaryExpression` */
  function ParsePrimary(ts: seq<Tok>): (r: Parsed)
    ensures r.Ok? ==> |r.rest| < |ts|
    decreases |ts|, 0
  {
    if ts == [] then Fail
    else match ts[0]
      case TIdent(name) =>
        if Next(ts[1..], TOpenParen) then
          var a := ParseAll(TCloseParen, ts[2..]);
          if a.FailAll? then Fail else Ok(MakeCall(name, a.trees), a.rest)
        else Ok(Ref(name), ts[1..])
      case TDot => if |ts| > 1 && ts[1].TIdent? then Ok(AbsRef(ts[1].name), ts[2..]) else Fail
      case TOpenParen =>
        var p := ParseExpression(ts[1..]);
        if p.Fail? || !Next(p.rest, TCloseParen) then Fail else Ok(Paren(p.tree), p.rest[1..])
      case TOpenBox => ParseAttrs([], ts[1..], true)
      case TOpenBrace =>
        var a := ParseAll(TCloseBrace, ts[1..]);
        if a.FailAll? then Fail else Ok(List(a.trees), a.rest)
      case TUndefined => Ok(Lit(LUndefined), ts[1..])
      case TErrorValue => Ok(Lit(LError), ts[1..])
      case TBool(b) => Ok(Lit(LBool(b)), ts[1..])
      case TInt(i, f) => Ok(Lit(LInt(i, f)), ts[1..])
      case TStr(s) => Ok(Lit(LStr(s)), ts[1..])
      case _ => Fail
  }

  /** `parseArgumentList` and `parseExprList`, after the opening token. */
  function ParseAll(close: Tok, ts: seq<Tok>): (r: ParsedAll)
    ensures r.OkAll? ==> |r.rest| < |ts|
    decreases |ts|, 17
  {
    if Next(ts, close) then OkAll([], ts[1..]) else ParseSome(close, ts)
  }

  function ParseSome(close: Tok, ts: seq<Tok>): (r: ParsedAll)
    ensures r.OkAll? ==> |r.rest| < |ts|
    decreases |ts|, 16
  {
    var p := ParseExpression(ts);
    if p.Fail? then FailAll
    else if Next(p.rest, TComma) then
      var a := ParseSome(close, p.rest[1..]);
      if a.FailAll? then FailAll else OkAll([p.tree] + a.trees, a.rest)
    else if Next(p.rest, close) then OkAll([p.tree], p.rest[1..])
    else FailAll
  }

  function SkipSemis(ts: seq<Tok>): (r: seq<Tok>)
    ensures |r| <= |ts|
  {
    if Next(ts, TSemi) then SkipSemis(ts[1..]) else ts
  }

  /**
   The loop of `parseClassAd`.  A semicolon skipped at the top of the loop is
   not followed by a look at the next token, so the ad may not close there.
   */
  function ParseAttrs(attrs: seq<Attr>, ts: seq<Tok>, mayClose: bool): (r: Parsed)
    ensures r.Ok? ==> |r.rest| < |ts|
    decreases |ts|, 16
  {
    if ts == [] then Fail
    else if mayClose && ts[0] == TCloseBox then Ok(Ad(attrs), ts[1..])
    else if ts[0] == TSemi then ParseAttrs(attrs, ts[1..], false)
    else if ts[0].TIdent? && Next(ts[1..], TAssign) then
      var p := ParseExpression(ts[2..]);
      if p.Fail? || ts[0].name == "" || !(Next(p.rest, TSemi) || Next(p.rest, TCloseBox)) then Fail
      else ParseAttrs(InsertAttr(attrs, ts[0].name, p.tree), SkipSemis(p.rest), true)
    else Fail
  }

  /** `ParseExpression(buffer, tree, full)`; a conditional at the top escapes the check. */
  function FullParse(ts: seq<Tok>): Parsed {
    var p := ParseExpression(ts);
    if p.Ok? && p.rest != [] && !p.tree.Cond? then Fail else p
  }
}
