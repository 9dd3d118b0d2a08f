/**
 Names as characters: which names are written without quotes, and what
 `Lexer::tokenizeAlphaHead` reads of them.
 */
module Words {
  import opened Values
  import opened Syntax
  import L = OperatorLaws

  /** `isalpha` in the C locale. */
  predicate IsLetter(c: char) {
    65 <= c as int < 91 || 97 <= c as int < 123
  }

  /** A character that goes on with a name: `isalnum` or an underscore. */
  predicate GoesOn(c: char) {
    IsLetter(c) || 48 <= c as int < 58 || c as int == 95
  }

  /** A character that begins a name. */
  predicate Begins(c: char) {
    IsLetter(c) || c as int == 95
  }

  function LettersEnd(s: string): (n: nat)
    ensures n <= |s| && (n < |s| ==> !IsLetter(s[n]))
    ensures forall i :: 0 <= i < n ==> IsLetter(s[i])
  {
    if s == "" || !IsLetter(s[0]) then 0 else 1 + LettersEnd(s[1..])
  }

  function WordEnd(s: string): (n: nat)
    ensures n <= |s| && (n < |s| ==> !GoesOn(s[n]))
    ensures forall i :: 0 <= i < n ==> GoesOn(s[i])
  {
    if s == "" || !GoesOn(s[0]) then 0 else 1 + WordEnd(s[1..])
  }

  /** The token at the head of `s` and its length; only a run of letters can be a reserved word. */
  function WordToken(s: string): (Tok, nat) {
    var n := LettersEnd(s);
    if n < |s| && GoesOn(s[n]) then (TIdent(s[..WordEnd(s)]), WordEnd(s))
    else if Keyword(s[..n]).Some? then (Keyword(s[..n]).value, n)
    else (TIdent(s[..n]), n)
  }

  lemma {:induction false} LettersFirst(s: string)
    ensures LettersEnd(s) <= WordEnd(s)
    ensures !(LettersEnd(s) < |s| && GoesOn(s[LettersEnd(s)])) ==> LettersEnd(s) == WordEnd(s)
  {
    if s != "" && IsLetter(s[0]) { LettersFirst(s[1..]); }
  }

  lemma {:induction false} LettersEndIs(s: string, n: nat)
    requires n <= |s| && (forall i :: 0 <= i < n ==> IsLetter(s[i])) && (n < |s| ==> !IsLetter(s[n]))
    ensures LettersEnd(s) == n
  {
    hide LettersEnd;
  }

  lemma {:induction false} WordEndIs(s: string, n: nat)
    requires n <= |s| && (forall i :: 0 <= i < n ==> GoesOn(s[i])) && (n < |s| ==> !GoesOn(s[n]))
    ensures WordEnd(s) == n
  {
    hide WordEnd;
  }

  /** The two loops of `tokenizeAlphaHead`. */
  method TokenizeAlphaHead(s: string) returns (token: Tok, n: nat)
    ensures (token, n) == WordToken(s)
  {
    hide Keyword;
    hide LettersEnd;
    hide WordEnd;
    n := 0;
    while n < |s| && IsLetter(s[n])
      invariant 0 <= n <= |s| && forall i :: 0 <= i < n ==> IsLetter(s[i])
    {
      n := n + 1;
    }
    LettersEndIs(s, n);
    if n < |s| && GoesOn(s[n]) {
      n := n + 1;
      while n < |s| && GoesOn(s[n])
        invariant 0 <= n <= |s| && forall i :: 0 <= i < n ==> GoesOn(s[i])
      {
        n := n + 1;
      }
      WordEndIs(s, n);
      return TIdent(s[..n]), n;
    }
    token := if Keyword(s[..n]).Some? then Keyword(s[..n]).value else TIdent(s[..n]);
  }

  lemma PlainMeans(name: string)
    ensures IsPlain(name) <==> name != "" && Begins(name[0]) && forall i :: 0 <= i < |name| ==> GoesOn(name[i])
  {
  }

  /** A reserved word is all letters. */
  lemma ReservedIsLetters(name: string)
    requires Keyword(name).Some?
    ensures forall i :: 0 <= i < |name| ==> IsLetter(name[i])
  {
    L.LowerExactly(name);
    var w := Lower(name);
    assert w in ["true", "false", "undefined", "error", "is", "isnt"];
    hide Lower;
    forall i | 0 <= i < |name| ensures IsLetter(name[i]) {
      assert 97 <= w[i] as int < 123;
    }
  }

  /**
   A name that begins as one is read whole, as the token that the printer takes
   it for, exactly when the printer writes it without quotes.
   */
  lemma UnquotedNamesRead(name: string, rest: string)
    requires name != "" && Begins(name[0]) && (rest != "" ==> !GoesOn(rest[0]))
    ensures WordToken(name + rest) == (RawTok(name), |name|) <==> IsPlain(name)
    ensures !IsPlain(name) ==> WordToken(name + rest).1 < |name|
  {
    var s := name + rest;
    PlainMeans(name);
    LettersFirst(s);
    var n := LettersEnd(s);
    if IsPlain(name) {
      WordEndIs(s, |name|);
      assert s[..|name|] == name;
      if n < |s| && GoesOn(s[n]) {
        assert n < |name| && name[n] == s[n];
        if Keyword(name).Some? { ReservedIsLetters(name); }
      }
    } else {
      var i :| 0 <= i < |name| && !GoesOn(name[i]);
      assert s[i] == name[i];
      assert WordEnd(s) <= i;
    }
    hide Keyword;
    hide IsPlain;
  }
}
