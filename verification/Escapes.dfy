/**
 String literals and quoted attribute names as text: `ClassAdUnParser` writes
 them, `Lexer::tokenizeString` finds their end, `convert_escapes` reads them.

 Strings are strings of bytes; a byte is a character below 256.
 */
module Escapes {
  import opened Values

  const BACKSLASH: char := '\\'
  const NUL: char := 0 as char

  predicate IsDelimiter(c: char) {
    c == '\"' || c == '\''
  }

  /** `isspace` in the C locale. */
  predicate IsSpace(c: char) {
    c == ' ' || 9 <= c as int <= 13
  }

  /** `isprint` in the C locale. */
  predicate IsPrintable(c: char) {
    32 <= c as int <= 126
  }

  predicate IsOctal(c: char) {
    '0' <= c <= '7'
  }

  /** A NUL-free string of bytes. */
  predicate IsText(s: string) {
    forall i :: 0 <= i < |s| ==> 0 < s[i] as int < 256
  }

  // ---------- writing ----------

  function OctalDigit(n: nat): char
    requires n < 8
  {
    ('0' as int + n) as char
  }

  function Octal3(n: nat): string
    requires n < 256
  {
    [OctalDigit(n / 64), OctalDigit(n / 8 % 8), OctalDigit(n % 8)]
  }

  /** The letter of a simple escape, if the character has one. */
  function Letter(c: char): Option<char> {
    match c as int
    case 7 => Some('a')
    case 8 => Some('b')
    case 12 => Some('f')
    case 10 => Some('n')
    case 13 => Some('r')
    case 9 => Some('t')
    case 11 => Some('v')
    case _ => if c == BACKSLASH then Some(BACKSLASH) else None
  }

  /** How one character of a string is written between delimiters. */
  function Escape(c: char, delim: char): string {
    if c == delim then [BACKSLASH, delim]
    else if Letter(c).Some? then [BACKSLASH, Letter(c).value]
    else if !IsPrintable(c) && c as int < 256 then [BACKSLASH] + Octal3(c as int)
    else [c]
  }

  function EscapeAll(s: string, delim: char): string {
    if s == "" then "" else Escape(s[0], delim) + EscapeAll(s[1..], delim)
  }

  // ---------- reading ----------

  /**
   The scan for the closing delimiter.  `odd` is `oddBackWhacks`: an odd number
   of backslashes stands just before.  None: the input ended first.
   */
  function Close(s: string, delim: char, odd: bool): Option<nat> {
    if s == "" || s[0] == NUL then None
    else if s[0] == delim && !odd then Some(0)
    else
      var o := Close(s[1..], delim, !odd && s[0] == BACKSLASH);
      if o.None? then None else Some(o.value + 1)
  }

  lemma {:induction false} CloseInside(s: string, delim: char, odd: bool)
    ensures Close(s, delim, odd).Some? ==> Close(s, delim, odd).value < |s|
    ensures Close(s, delim, odd).Some? ==> s[Close(s, delim, odd).value] == delim
  {
    if s != "" && s[0] != NUL && !(s[0] == delim && !odd) {
      CloseInside(s[1..], delim, !odd && s[0] == BACKSLASH);
    }
  }

  function SkipSpaces(s: string): (r: string)
    ensures |r| <= |s|
    ensures r != "" ==> !IsSpace(r[0])
  {
    if s != "" && IsSpace(s[0]) then SkipSpaces(s[1..]) else s
  }

  datatype Scanned = Unterminated | Scanned(raw: string, rest: string)

  /**
   `tokenizeString` after the opening delimiter: adjacent literals with the same
   delimiter are run together before their escapes are read.
   */
  function Scan(s: string, delim: char): Scanned
    decreases |s|
  {
    var k := Close(s, delim, false);
    if k.None? then Unterminated
    else
      CloseInside(s, delim, false);
      var next := SkipSpaces(s[k.value + 1..]);
      if next != "" && next[0] == delim then
        match Scan(next[1..], delim)
        case Unterminated => Unterminated
        case Scanned(raw, rest) => Scanned(s[..k.value] + raw, rest)
      else Scanned(s[..k.value], next)
  }

  function OctalValue(s: string): nat
    requires forall i :: 0 <= i < |s| ==> IsOctal(s[i])
  {
    if s == "" then 0
    else
      var last := s[|s| - 1];
      assert IsOctal(last);
      OctalValue(s[..|s| - 1]) * 8 + (last as int - '0' as int)
  }

  predicate ThreeOctal(s: string) {
    |s| >= 3 && '0' <= s[0] <= '3' && IsOctal(s[1]) && IsOctal(s[2])
  }

  /** How many digits the octal escape at the head of `s` takes. */
  function OctalLength(s: string): nat
    requires s != "" && IsOctal(s[0])
    ensures 1 <= OctalLength(s) <= |s|
    ensures forall i :: 0 <= i < OctalLength(s) ==> IsOctal(s[i])
  {
    if ThreeOctal(s) then 3 else if |s| >= 2 && IsOctal(s[1]) then 2 else 1
  }

  lemma OctalSmall(s: string)
    requires s != "" && IsOctal(s[0])
    ensures OctalValue(s[..OctalLength(s)]) < 256
  {
    var d := s[..OctalLength(s)];
    if |d| == 1 {
      assert d[..0] == "";
    } else if |d| == 2 {
      assert d[..1][..0] == "";
      assert OctalValue(d[..1]) == d[0] as int - '0' as int;
    } else {
      assert d[..2][..1] == d[..1] && d[..1][..0] == "";
      assert OctalValue(d[..1]) == d[0] as int - '0' as int;
      assert OctalValue(d[..2]) == OctalValue(d[..1]) * 8 + (d[1] as int - '0' as int);
    }
  }

  /** The character a one-letter escape stands for; others stand for themselves. */
  function Unletter(c: char): char {
    match c
    case 'a' => 7 as char
    case 'b' => 8 as char
    case 'f' => 12 as char
    case 'n' => 10 as char
    case 'r' => 13 as char
    case 't' => 9 as char
    case 'v' => 11 as char
    case _ => c
  }

  /** One step of `convert_escapes`: characters consumed and the character made, None for an escaped NUL. */
  function Step(s: string): (nat, Option<char>)
    requires s != "" && s != [BACKSLASH]
    ensures 1 <= Step(s).0 <= |s|
  {
    if s[0] != BACKSLASH then (1, Some(s[0]))
    else if IsOctal(s[1]) then
      var n := OctalLength(s[1..]);
      OctalSmall(s[1..]);
      var v := OctalValue(s[1..][..n]);
      (n + 1, if v == 0 then None else Some(v as char))
    else (2, Some(Unletter(s[1])))
  }

  /**
   `convert_escapes`; None is an invalid literal, one with an escaped NUL.
   A backslash at the very end escapes the terminator and so adds nothing.
   */
  function Unescape(s: string): Option<string> {
    if s == "" || s == [BACKSLASH] then Some("")
    else
      var (n, c) := Step(s);
      if c.None? then None
      else
        var rest := Unescape(s[n..]);
        if rest.None? then None else Some([c.value] + rest.value)
  }

  // ---------- the round trip ----------

  lemma EscapeLetter(c: char, delim: char)
    requires IsDelimiter(delim)
    requires Letter(c).Some?
    ensures Unletter(Letter(c).value) == c && !IsOctal(Letter(c).value)
    ensures Letter(c).value != delim && c != delim
  {
  }

  lemma Octal3Value(n: nat)
    requires n < 256
    ensures |Octal3(n)| == 3 && (forall i :: 0 <= i < 3 ==> IsOctal(Octal3(n)[i])) && '0' <= Octal3(n)[0] <= '3'
    ensures OctalValue(Octal3(n)) == n
  {
    var o := Octal3(n);
    assert o[..2][..1] == o[..1] && o[..1][..0] == "";
    assert OctalValue(o[..1]) == n / 64;
    assert OctalValue(o[..2]) == n / 64 * 8 + n / 8 % 8;
    assert OctalValue(o) == (n / 64 * 8 + n / 8 % 8) * 8 + n % 8 == n;
  }

  lemma OctalRoundTrip(n: nat, tail: string)
    requires 0 < n < 256
    ensures var s := [BACKSLASH] + Octal3(n) + tail; Step(s) == (4, Some(n as char))
  {
    var o := Octal3(n);
    Octal3Value(n);
    hide Octal3;
    hide OctalValue;
    var s := [BACKSLASH] + o + tail;
    assert s[1..] == o + tail && s[1] == o[0];
    assert (o + tail)[0] == o[0] && (o + tail)[1] == o[1] && (o + tail)[2] == o[2];
    assert s[1..][..3] == o;
  }

  /** An escape is read back as one step. */
  lemma EscapeStep(c: char, delim: char, tail: string)
    requires IsDelimiter(delim) && 0 < c as int < 256
    ensures Escape(c, delim) + tail != [BACKSLASH]
    ensures Step(Escape(c, delim) + tail) == (|Escape(c, delim)|, Some(c))
  {
    var s := Escape(c, delim) + tail;
    if c == delim {
    } else if Letter(c).Some? {
      EscapeLetter(c, delim);
    } else if !IsPrintable(c) {
      OctalRoundTrip(c as int, tail);
      assert s == [BACKSLASH] + Octal3(c as int) + tail;
    }
  }

  lemma {:induction false} UnescapeEscapes(s: string, delim: char)
    requires IsText(s) && IsDelimiter(delim)
    ensures Unescape(EscapeAll(s, delim)) == Some(s)
  {
    if s != "" {
      var e, tail := Escape(s[0], delim), EscapeAll(s[1..], delim);
      EscapeStep(s[0], delim, tail);
      assert (e + tail)[|e|..] == tail;
      UnescapeEscapes(s[1..], delim);
      assert s == [s[0]] + s[1..];
    }
  }

  /** A position found `n` characters further on. */
  function After(n: nat, o: Option<nat>): Option<nat> {
    if o.None? then None else Some(o.value + n)
  }

  lemma CloseAdvances(c: char, tail: string, delim: char, odd: bool)
    requires c != NUL && (c != delim || odd)
    ensures Close([c] + tail, delim, odd) == After(1, Close(tail, delim, !odd && c == BACKSLASH))
  {
    assert ([c] + tail)[1..] == tail;
  }

  lemma ClosePassesPair(c: char, tail: string, delim: char)
    requires IsDelimiter(delim) && c != NUL
    ensures Close([BACKSLASH, c] + tail, delim, false) == After(2, Close(tail, delim, false))
  {
    hide Close;
    CloseAdvances(BACKSLASH, [c] + tail, delim, false);
    CloseAdvances(c, tail, delim, true);
    assert [BACKSLASH, c] + tail == [BACKSLASH] + ([c] + tail);
  }

  lemma ClosePassesOctal(n: nat, tail: string, delim: char)
    requires IsDelimiter(delim) && n < 256
    ensures Close([BACKSLASH] + Octal3(n) + tail, delim, false) == After(4, Close(tail, delim, false))
  {
    hide Close;
    var o := Octal3(n);
    var t := [o[2]] + tail;
    ClosePassesPair(o[0], [o[1]] + t, delim);
    CloseAdvances(o[1], t, delim, false);
    CloseAdvances(o[2], tail, delim, false);
    assert [BACKSLASH] + o + tail == [BACKSLASH, o[0]] + ([o[1]] + t);
  }

  /** The scan passes over an escape without stopping and ends it with even parity. */
  lemma ClosePassesEscape(c: char, delim: char, tail: string)
    requires IsDelimiter(delim) && 0 < c as int < 256
    ensures Close(Escape(c, delim) + tail, delim, false) == After(|Escape(c, delim)|, Close(tail, delim, false))
  {
    hide Close;
    if c == delim {
      ClosePassesPair(delim, tail, delim);
    } else if Letter(c).Some? {
      EscapeLetter(c, delim);
      ClosePassesPair(Letter(c).value, tail, delim);
    } else if !IsPrintable(c) {
      ClosePassesOctal(c as int, tail, delim);
    } else {
      CloseAdvances(c, tail, delim, false);
    }
  }

  lemma {:induction false} CloseFindsEnd(s: string, delim: char, rest: string)
    requires IsText(s) && IsDelimiter(delim)
    ensures Close(EscapeAll(s, delim) + [delim] + rest, delim, false) == Some(|EscapeAll(s, delim)|)
  {
    if s == "" {
      assert EscapeAll(s, delim) + [delim] + rest == [delim] + rest;
    } else {
      var e, tail := Escape(s[0], delim), EscapeAll(s[1..], delim) + [delim] + rest;
      assert EscapeAll(s, delim) + [delim] + rest == e + tail;
      ClosePassesEscape(s[0], delim, tail);
      CloseFindsEnd(s[1..], delim, rest);
    }
  }

  /**
   String literals round trip: written between delimiters, a string is scanned
   to exactly its closing delimiter and read back as itself.
   */
  lemma StringRoundTrip(s: string, delim: char, rest: string)
    requires IsText(s) && IsDelimiter(delim)
    requires SkipSpaces(rest) != "" ==> SkipSpaces(rest)[0] != delim
    ensures Scan(EscapeAll(s, delim) + [delim] + rest, delim) == Scanned(EscapeAll(s, delim), SkipSpaces(rest))
    ensures Unescape(EscapeAll(s, delim)) == Some(s)
  {
    var e := EscapeAll(s, delim);
    var text := e + [delim] + rest;
    CloseFindsEnd(s, delim, rest);
    assert text[..|e|] == e && text[|e| + 1..] == rest;
    UnescapeEscapes(s, delim);
  }

  // ---------- the written form ----------

  /** Whatever the string, what is written is printable, and a plain string is written as it is. */
  lemma {:induction false} WrittenPrintably(s: string, delim: char)
    requires IsText(s) && IsDelimiter(delim)
    ensures forall c :: c in EscapeAll(s, delim) ==> 32 <= c as int <= 126
    ensures (forall c :: c in s ==> 32 <= c as int <= 126 && c != delim && c != BACKSLASH) ==> EscapeAll(s, delim) == s
  {
    if s != "" {
      EscapePrintable(s[0], delim);
      WrittenPrintably(s[1..], delim);
      hide Escape;
      assert s == [s[0]] + s[1..];
      if forall c :: c in s ==> 32 <= c as int <= 126 && c != delim && c != BACKSLASH {
        assert forall c :: c in s[1..] ==> c in s;
        assert s[0] in s && EscapeAll(s[1..], delim) == s[1..];
      }
    }
  }

  lemma EscapePrintable(c: char, delim: char)
    requires 0 < c as int < 256 && IsDelimiter(delim)
    ensures forall x :: x in Escape(c, delim) ==> 32 <= x as int <= 126
    ensures 32 <= c as int <= 126 && c != delim && c != BACKSLASH ==> Escape(c, delim) == [c]
  {
  }

  lemma {:induction false} EscapeJoins(s: string, t: string, delim: char)
    ensures EscapeAll(s + t, delim) == EscapeAll(s, delim) + EscapeAll(t, delim)
  {
    hide Escape;
    if s == "" {
      assert s + t == t;
    } else {
      assert (s + t)[1..] == s[1..] + t;
      EscapeJoins(s[1..], t, delim);
    }
  }

  /** The seven control characters that have a letter are written with it. */
  lemma ControlsShort(c: char, delim: char)
    requires 7 <= c as int <= 13 && IsDelimiter(delim)
    ensures |Escape(c, delim)| == 2 && Escape(c, delim)[0] == BACKSLASH
  {
  }

  /** White space: blank, tab, newline, vertical tab, form feed and carriage return. */
  predicate IsWhite(c: char) {
    c as int in {32, 9, 10, 11, 12, 13}
  }

  /** White space is skipped, all of it and nothing else. */
  lemma {:induction false} WhiteSkipped(gap: string, t: string)
    requires (forall c :: c in gap ==> IsWhite(c)) && (t != "" ==> !IsWhite(t[0]))
    ensures SkipSpaces(gap + t) == t
  {
    if gap == "" {
      assert gap + t == t;
    } else {
      assert gap[0] in gap && (gap + t)[1..] == gap[1..] + t;
      WhiteSkipped(gap[1..], t);
    }
  }

  /** Literals with one delimiter next to each other, spaces apart or not, are read as one string, in their order. */
  lemma {:induction false} AdjacentLiterals(s: string, t: string, delim: char, gap: string, rest: string)
    requires IsText(s) && IsText(t) && IsDelimiter(delim)
    requires forall c :: c in gap ==> IsWhite(c)
    requires SkipSpaces(rest) != "" ==> SkipSpaces(rest)[0] != delim
    ensures var text := EscapeAll(s, delim) + [delim] + (gap + [delim] + (EscapeAll(t, delim) + [delim] + rest));
      Scan(text, delim) == Scanned(EscapeAll(s + t, delim), SkipSpaces(rest))
    ensures Unescape(EscapeAll(s + t, delim)) == Some(s + t)
  {
    var e, tail := EscapeAll(s, delim), gap + [delim] + (EscapeAll(t, delim) + [delim] + rest);
    var next := [delim] + (EscapeAll(t, delim) + [delim] + rest);
    assert tail == gap + next && !IsWhite(next[0]);
    WhiteSkipped(gap, next);
    CloseFindsEnd(s, delim, tail);
    StringRoundTrip(t, delim, rest);
    EscapeJoins(s, t, delim);
    UnescapeEscapes(s + t, delim);
    hide Close;
    hide EscapeAll;
    hide SkipSpaces;
    hide Unescape;
    var text := e + [delim] + tail;
    assert text[..|e|] == e && text[|e| + 1..] == tail;
    assert ([delim] + (EscapeAll(t, delim) + [delim] + rest))[1..] == EscapeAll(t, delim) + [delim] + rest;
  }

  /** An octal escape takes as many digits, up to three, as keep it below 256. */
  lemma OctalTakesLongest(s: string, k: nat)
    requires s != "" && IsOctal(s[0]) && 1 <= k <= 3 && k <= |s|
    requires forall i :: 0 <= i < k ==> IsOctal(s[i])
    ensures k <= OctalLength(s) <==> OctalValue(s[..k]) < 256
  {
    var d := s[..k];
    assert d[..0] == "";
    if k == 2 {
      assert d[..1][..0] == "";
      assert OctalValue(d[..1]) == d[0] as int - '0' as int;
    } else if k == 3 {
      assert d[..2][..1] == d[..1] && d[..1][..0] == "";
      assert OctalValue(d[..1]) == d[0] as int - '0' as int;
      assert OctalValue(d[..2]) == OctalValue(d[..1]) * 8 + (d[1] as int - '0' as int);
    }
  }

  /** A backslash before any other character stands for that character. */
  lemma OtherEscapes(c: char, tail: string)
    requires !IsOctal(c) && c !in {'a', 'b', 'f', 'n', 'r', 't', 'v'}
    ensures Unescape([BACKSLASH, c] + tail) ==
      if Unescape(tail).None? then None else Some([c] + Unescape(tail).value)
  {
    var s := [BACKSLASH, c] + tail;
    assert s[2..] == tail && Step(s) == (2, Some(c));
  }

  // ---------- the loops ----------

  /** `Unparse` of a string value: the buffer grows one escape at a time. */
  method UnparseString(s: string, delim: char) returns (buffer: string)
    ensures buffer == "\"" + EscapeAll(s, delim) + "\""
  {
    buffer := "\"";
    var i := 0;
    while i < |s|
      invariant 0 <= i <= |s|
      invariant buffer + EscapeAll(s[i..], delim) == "\"" + EscapeAll(s, delim)
    {
      assert s[i..][1..] == s[i + 1..];
      buffer := buffer + Escape(s[i], delim);
      i := i + 1;
    }
    buffer := buffer + "\"";
  }

  /** The inner loop of `tokenizeString`, one character at a time. */
  method FindClose(s: string, start: nat, delim: char) returns (k: Option<nat>)
    requires start <= |s|
    ensures k == After(start, Close(s[start..], delim, false))
  {
    var odd := false;
    var i := start;
    while i < |s| && s[i] != NUL && (s[i] != delim || odd)
      invariant start <= i <= |s|
      invariant After(i, Close(s[i..], delim, odd)) == After(start, Close(s[start..], delim, false))
    {
      assert s[i..][1..] == s[i + 1..];
      odd := !odd && s[i] == BACKSLASH;
      i := i + 1;
    }
    k := if i < |s| && s[i] == delim && s[i] != NUL then Some(i) else None;
  }

  lemma UnescapeStep(s: string)
    requires s != "" && s != [BACKSLASH]
    ensures var (n, c) := Step(s);
      Unescape(s) == if c.None? then None else Prefixed([c.value], Unescape(s[n..]))
  {
    hide Step;
  }

  lemma UnescapeEnd(s: string)
    requires s == "" || s == [BACKSLASH]
    ensures Unescape(s) == Some("")
  {
  }

  /** `convert_escapes`: `copy` is filled through a second index that never overtakes the first. */
  method ConvertEscapes(text: string) returns (r: Option<string>)
    ensures r == Unescape(text)
  {
    hide Unescape;
    hide Step;
    var copy := new char[|text|];
    var source, dest := 0, 0;
    assert text[0..] == text && copy[..0] == "";
    PrefixedNothing(Unescape(text));
    while source < |text| && text[source..] != [BACKSLASH]
      invariant 0 <= dest <= source <= |text|
      invariant Unescape(text) == Prefixed(copy[..dest], Unescape(text[source..]))
    {
      var (n, c) := Step(text[source..]);
      UnescapeStep(text[source..]);
      assert text[source..][n..] == text[source + n..];
      if c.None? {
        return None;
      }
      ghost var before := copy[..dest];
      copy[dest] := c.value;
      assert copy[..dest + 1] == before + [c.value];
      PrefixedMore(before, c.value, Unescape(text[source + n..]));
      dest := dest + 1;
      source := source + n;
    }
    UnescapeEnd(text[source..]);
    assert copy[..dest] + "" == copy[..dest];
    r := Some(copy[..dest]);
  }

  ghost function Prefixed(p: string, o: Option<string>): Option<string> {
    if o.None? then None else Some(p + o.value)
  }

  lemma PrefixedNothing(o: Option<string>)
    ensures Prefixed("", o) == o
  {
    if o.Some? { assert "" + o.value == o.value; }
  }

  lemma PrefixedMore(p: string, c: char, o: Option<string>)
    ensures Prefixed(p, Prefixed([c], o)) == Prefixed(p + [c], o)
  {
    if o.Some? { assert p + ([c] + o.value) == p + [c] + o.value; }
  }

  ghost function Joined(p: string, o: Scanned): Scanned {
    if o.Unterminated? then o else Scanned(p + o.raw, o.rest)
  }

  lemma JoinedMore(p: string, q: string, o: Scanned)
    ensures Joined(p, Joined(q, o)) == Joined(p + q, o)
    ensures Joined("", o) == o
  {
    if o.Scanned? {
      assert p + (q + o.raw) == p + q + o.raw && "" + o.raw == o.raw;
    }
  }

  /** `tokenizeString`: gather adjacent literals into one buffer, then read its escapes. */
  method TokenizeString(s: string, delim: char) returns (token: Option<string>, rest: string)
    ensures Scan(s, delim).Unterminated? ==> token == None
    ensures Scan(s, delim).Scanned? ==> token == Unescape(Scan(s, delim).raw) && rest == Scan(s, delim).rest
  {
    var buffer, input := "", s;
    JoinedMore("", "", Scan(s, delim));
    while true
      invariant Scan(s, delim) == Joined(buffer, Scan(input, delim))
      decreases |input|
    {
      var k := FindClose(input, 0, delim);
      assert input[0..] == input;
      if k.None? {
        return None, "";
      }
      CloseInside(input, delim, false);
      var next := SkipSpaces(input[k.value + 1..]);
      ghost var old_buffer := buffer;
      buffer := buffer + input[..k.value];
      if next != "" && next[0] == delim {
        JoinedMore(old_buffer, input[..k.value], Scan(next[1..], delim));
        input := next[1..];
      } else {
        token := ConvertEscapes(buffer);
        return token, next;
      }
    }
  }
}
