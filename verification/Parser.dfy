/**
 `ClassAdParser` as it runs: one token stream that every level consumes, and a
 loop that rebuilds the tree at each left-associative level.
 */
module Parser {
  import opened Values
  import opened Syntax

  /** What a parsing method leaves: the tree and the tokens not consumed, or no tree. */
  predicate Agrees(p: Parsed, tree: Option<Expr>, rest: seq<Tok>) {
    if p.Ok? then tree == Some(p.tree) && rest == p.rest else tree.None?
  }

  predicate AgreesAll(p: ParsedAll, trees: Option<seq<Expr>>, rest: seq<Tok>) {
    if p.OkAll? then trees == Some(p.trees) && rest == p.rest else trees.None?
  }

  /** Reading the rest of a list when `es` has been read and a comma consumed. */
  function Resume(es: seq<Expr>, p: ParsedAll): ParsedAll {
    if p.OkAll? then OkAll(es + p.trees, p.rest) else FailAll
  }

  lemma ResumeFirst(close: Tok, ts: seq<Tok>)
    ensures ParseAll(close, ts) ==
      if Next(ts, close) then OkAll([], ts[1..]) else Resume([], ParseSome(close, ts))
  {
    hide ParseSome;
    var p := ParseSome(close, ts);
    if p.OkAll? { assert [] + p.trees == p.trees; }
  }

  /** One turn of the loop that reads a list. */
  lemma ResumeNext(close: Tok, es: seq<Expr>, ts: seq<Tok>)
    ensures var p := ParseExpression(ts);
      Resume(es, ParseSome(close, ts)) ==
        if p.Fail? then FailAll
        else if Next(p.rest, TComma) then Resume(es + [p.tree], ParseSome(close, p.rest[1..]))
        else if Next(p.rest, close) then OkAll(es + [p.tree], p.rest[1..])
        else FailAll
  {
    hide ParseExpression;
    var p := ParseExpression(ts);
    if p.Ok? && Next(p.rest, TComma) {
      var a := ParseSome(close, p.rest[1..]);
      if a.OkAll? { assert es + ([p.tree] + a.trees) == es + [p.tree] + a.trees; }
    }
  }

  class ClassAdParser {
    var rest: seq<Tok>

    constructor (ts: seq<Tok>)
      ensures rest == ts
    {
      rest := ts;
    }

    method ReadExpression() returns (tree: Option<Expr>)
      modifies this
      ensures Agrees(ParseExpression(old(rest)), tree, rest)
      decreases |rest|, 15
    {
      hide ParseLevel;
      tree := ReadLevel(1);
      if tree.None? || !Next(rest, TQMark) { return; }
      rest := rest[1..];
      var middle := ReadExpression();
      if middle.None? || !Next(rest, TColon) { return None; }
      rest := rest[1..];
      var right := ReadExpression();
      if right.None? { return None; }
      tree := Some(Cond(tree.value, middle.value, right.value));
    }

    method ReadLevel(k: nat) returns (tree: Option<Expr>)
      requires 1 <= k <= 11
      modifies this
      ensures Agrees(ParseLevel(k, old(rest)), tree, rest)
      decreases |rest|, 14 - k
    {
      hide ParseUnary;
      if k == 11 {
        tree := ReadUnary();
        return;
      }
      tree := ReadLevel(k + 1);
      if tree.None? { return; }
      ghost var first, from := tree.value, rest;
      while rest != [] && rest[0].TOp? && Level(rest[0].op) == k
        invariant tree.Some? && |rest| < |old(rest)|
        invariant ParseOperators(k, tree.value, rest) == ParseOperators(k, first, from)
        decreases |rest|
      {
        var op := rest[0].op;
        rest := rest[1..];
        var right := ReadLevel(k + 1);
        if right.None? { return None; }
        tree := Some(Bin(op, tree.value, right.value));
      }
    }

    method ReadUnary() returns (tree: Option<Expr>)
      modifies this
      ensures Agrees(ParseUnary(old(rest)), tree, rest)
      decreases |rest|, 2
    {
      hide ParsePostfix;
      if rest != [] && UnaryOf(rest[0]).Some? {
        var op := UnaryOf(rest[0]).value;
        rest := rest[1..];
        tree := ReadUnary();
        if tree.Some? { tree := Some(Un(op, tree.value)); }
      } else {
        tree := ReadPostfix();
      }
    }

    method ReadPostfix() returns (tree: Option<Expr>)
      modifies this
      ensures Agrees(ParsePostfix(old(rest)), tree, rest)
      decreases |rest|, 1
    {
      hide ParsePrimary;
      hide ParseExpression;
      tree := ReadPrimary();
      if tree.None? { return; }
      ghost var first, from := tree.value, rest;
      while Next(rest, TOpenBox) || Next(rest, TDot)
        invariant tree.Some? && |rest| < |old(rest)|
        invariant ParseSuffixes(tree.value, rest) == ParseSuffixes(first, from)
        decreases |rest|
      {
        if Next(rest, TOpenBox) {
          rest := rest[1..];
          var index := ReadExpression();
          if index.None? || !Next(rest, TCloseBox) { return None; }
          rest := rest[1..];
          tree := Some(Subscript(tree.value, index.value));
        } else {
          if |rest| == 1 || !rest[1].TIdent? { return None; }
          tree := Some(Select(tree.value, rest[1].name));
          rest := rest[2..];
        }
      }
    }

    method ReadPrimary() returns (tree: Option<Expr>)
      modifies this
      ensures Agrees(ParsePrimary(old(rest)), tree, rest)
      decreases |rest|, 0
    {
      hide MakeCall;
      hide ParseAll;
      hide ParseAttrs;
      hide ParseExpression;
      if rest == [] { return None; }
      var t := rest[0];
      rest := rest[1..];
      match t
      case TIdent(name) =>
        if !Next(rest, TOpenParen) { return Some(Ref(name)); }
        assert old(rest)[2..] == rest[1..];
        rest := rest[1..];
        var args := ReadAll(TCloseParen);
        if args.None? { return None; }
        tree := Some(MakeCall(name, args.value));
      case TDot =>
        if rest == [] || !rest[0].TIdent? { return None; }
        tree := Some(AbsRef(rest[0].name));
        assert old(rest)[2..] == rest[1..];
        rest := rest[1..];
      case TOpenParen =>
        tree := ReadExpression();
        if tree.None? || !Next(rest, TCloseParen) { return None; }
        rest := rest[1..];
        tree := Some(Paren(tree.value));
      case TOpenBox => tree := ReadAttrs();
      case TOpenBrace =>
        var elems := ReadAll(TCloseBrace);
        if elems.None? { return None; }
        tree := Some(List(elems.value));
      case TUndefined => tree := Some(Lit(LUndefined));
      case TErrorValue => tree := Some(Lit(LError));
      case TBool(b) => tree := Some(Lit(LBool(b)));
      case TInt(i, f) => tree := Some(Lit(LInt(i, f)));
      case TStr(s) => tree := Some(Lit(LStr(s)));
      case _ => tree := None;
    }

    /** The loop is left when the token last looked at is the closing one. */
    method ReadAll(close: Tok) returns (trees: Option<seq<Expr>>)
      requires close != TComma
      modifies this
      ensures AgreesAll(ParseAll(close, old(rest)), trees, rest)
      decreases |rest|, 17
    {
      hide ParseExpression;
      hide ParseSome;
      hide ParseAll;
      hide Resume;
      ResumeFirst(close, rest);
      var es := [];
      var done := Next(rest, close);
      while !done
        invariant done ==> Next(rest, close) && ParseAll(close, old(rest)) == OkAll(es, rest[1..])
        invariant !done ==> ParseAll(close, old(rest)) == Resume(es, ParseSome(close, rest))
        invariant |rest| <= |old(rest)|
        decreases |rest|, !done
      {
        ResumeNext(close, es, rest);
        var tree := ReadExpression();
        if tree.None? { return None; }
        es := es + [tree.value];
        if Next(rest, TComma) {
          rest := rest[1..];
        } else if Next(rest, close) {
          done := true;
        } else {
          return None;
        }
      }
      rest := rest[1..];
      trees := Some(es);
    }

    method ReadAttrs() returns (tree: Option<Expr>)
      modifies this
      ensures Agrees(ParseAttrs([], old(rest), true), tree, rest)
      decreases |rest|, 16
    {
      hide ParseExpression;
      hide InsertAttr;
      var attrs, mayClose := [], true;
      while !(mayClose && Next(rest, TCloseBox))
        invariant ParseAttrs(attrs, rest, mayClose) == ParseAttrs([], old(rest), true)
        invariant |rest| <= |old(rest)|
        decreases |rest|
      {
        if rest == [] { return None; }
        var t := rest[0];
        if t == TSemi {
          rest := rest[1..];
          mayClose := false;
        } else if t.TIdent? && Next(rest[1..], TAssign) {
          rest := rest[2..];
          var value := ReadExpression();
          if value.None? || t.name == "" { return None; }
          attrs := InsertAttr(attrs, t.name, value.value);
          if !(Next(rest, TSemi) || Next(rest, TCloseBox)) { return None; }
          SkipSemicolons();
          mayClose := true;
        } else {
          return None;
        }
      }
      rest := rest[1..];
      tree := Some(Ad(attrs));
    }

    method SkipSemicolons()
      modifies this
      ensures rest == SkipSemis(old(rest))
    {
      while Next(rest, TSemi)
        invariant SkipSemis(rest) == SkipSemis(old(rest))
        decreases |rest|
      {
        rest := rest[1..];
      }
    }
  }
}
