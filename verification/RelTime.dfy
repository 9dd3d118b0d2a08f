/**
 Relative times as text: `relTimeToString` writes `days+hh:mm:ss` and leaves out
 leading zero fields; `Literal::MakeRelTime` reads the text backwards.
 */
module RelativeTime {
  import opened Values
  import opened Escapes

  predicate IsDigit(c: char) {
    '0' <= c <= '9'
  }

  predicate AllDigits(s: string) {
    forall i :: 0 <= i < |s| ==> IsDigit(s[i])
  }

  // ---------- writing ----------

  function DigitChar(n: nat): char
    requires n < 10
  {
    ('0' as int + n) as char
  }

  /** `%d` of a number that is not negative. */
  function Decimal(n: nat): string {
    if n < 10 then [DigitChar(n)] else Decimal(n / 10) + [DigitChar(n % 10)]
  }

  /** `%02d` of a number that is not negative. */
  function TwoDigits(n: nat): string {
    if n < 10 then ['0', DigitChar(n)] else Decimal(n)
  }

  /** Leading fields that are zero are not written. */
  function FieldsText(days: nat, hrs: nat, mins: nat, secs: nat): string {
    if days != 0 then Decimal(days) + "+" + TwoDigits(hrs) + ":" + TwoDigits(mins) + ":" + TwoDigits(secs)
    else if hrs != 0 then TwoDigits(hrs) + ":" + TwoDigits(mins) + ":" + TwoDigits(secs)
    else if mins != 0 then TwoDigits(mins) + ":" + TwoDigits(secs)
    else TwoDigits(secs)
  }

  function UnsignedText(n: nat): string {
    FieldsText(n / 86400, n % 86400 / 3600, n % 3600 / 60, n % 60)
  }

  /** The numbers of seconds that the writer's conversion to a 32-bit `int` keeps. */
  predicate FitsInt(n: int) {
    -0x8000_0000 < n < 0x8000_0000
  }

  /** `relTimeToString` of a whole number of seconds. */
  function RelTimeText(n: int): string
    requires FitsInt(n)
  {
    if n < 0 then "-" + UnsignedText(-n) else UnsignedText(n)
  }

  // ---------- reading ----------

  /** `prevNonSpaceChar`: the text up to its last character that is no space. */
  function Trim(s: string): (r: string)
    ensures |r| <= |s| && r == s[..|r|]
    ensures r != "" ==> !IsSpace(r[|r| - 1])
  {
    if s != "" && IsSpace(s[|s| - 1]) then Trim(s[..|s| - 1]) else s
  }

  /** The text before its trailing run of digits. */
  function BeforeDigits(s: string): (r: string)
    ensures |r| <= |s| && r == s[..|r|] && AllDigits(s[|r|..])
    ensures r != "" ==> !IsDigit(r[|r| - 1])
  {
    if s != "" && IsDigit(s[|s| - 1]) then
      var r := BeforeDigits(s[..|s| - 1]);
      assert s[|r|..] == s[..|s| - 1][|r|..] + [s[|s| - 1]];
      r
    else s
  }

  /** `atoi` of digits. */
  function DecimalValue(s: string): nat
    requires AllDigits(s)
  {
    if s == "" then 0
    else
      var last := s[|s| - 1];
      assert IsDigit(last);
      DecimalValue(s[..|s| - 1]) * 10 + (last as int - '0' as int)
  }

  function TenTo(n: nat): int
    ensures TenTo(n) > 0
  {
    if n == 0 then 1 else 10 * TenTo(n - 1)
  }

  /** The text not yet read and the number just read. */
  datatype Field<T> = Field(before: string, value: T)

  predicate EndsWith(s: string, a: char, b: char, c: char) {
    s != "" && (s[|s| - 1] == a || s[|s| - 1] == b || s[|s| - 1] == c)
  }

  /** A minutes, hours or days field, if the text ends with its mark. */
  function Marked(s: string, a: char, b: char, c: char): Field<nat> {
    var t := Trim(s);
    if EndsWith(t, a, b, c) then
      var u := Trim(t[..|t| - 1]);
      var p := BeforeDigits(u);
      Field(p, DecimalValue(u[|p|..]))
    else Field(t, 0)
  }

  /** A number at the end of the text: digits, perhaps with a fraction. */
  function Number(u: string): Field<real> {
    var p := BeforeDigits(u);
    var digits := u[|p|..];
    if p != "" && p[|p| - 1] == '.' then
      var w := p[..|p| - 1];
      var q := BeforeDigits(w);
      Field(q, WithFraction(DecimalValue(w[|q|..]), DecimalValue(digits), |digits|))
    else Field(p, DecimalValue(digits) as real)
  }

  function WithFraction(whole: nat, fraction: nat, places: nat): real {
    whole as real + fraction as real / TenTo(places) as real
  }

  /** The seconds field: a number, perhaps an `s` after it. */
  function Seconds(s: string): Field<real> {
    var t := Trim(s);
    if EndsWith(t, 's', 'S', 's') then Number(Trim(t[..|t| - 1]))
    else if t != "" && IsDigit(t[|t| - 1]) then Number(t)
    else Field(t, 0.0)
  }

  /** What is left in front of the days field must be a sign or nothing. */
  function Signed(left: string, total: real): Option<real> {
    var t := Trim(left);
    var negative := t != "" && t[|t| - 1] == '-';
    if Trim(if negative then t[..|t| - 1] else t) != "" then None
    else Some(if negative then -total else total)
  }

  function Total(days: nat, hrs: nat, mins: nat, secs: real): real {
    (days * 86400 + hrs * 3600 + mins * 60) as real + secs
  }

  /** `MakeRelTime`; None is the error literal. */
  function MakeRelTime(s: string): Option<real> {
    var secs := Seconds(s);
    var mins := Marked(secs.before, 'm', 'M', ':');
    var hrs := Marked(mins.before, 'h', 'H', ':');
    var days := Marked(hrs.before, 'd', 'D', '+');
    Signed(days.before, Total(days.value, hrs.value, mins.value, secs.value))
  }

  // ---------- the round trip ----------

  lemma {:induction false} DecimalReads(n: nat)
    ensures |Decimal(n)| > 0 && AllDigits(Decimal(n)) && DecimalValue(Decimal(n)) == n
  {
    if n >= 10 {
      DecimalReads(n / 10);
      var s := Decimal(n);
      assert s[..|s| - 1] == Decimal(n / 10);
    } else {
      assert Decimal(n)[..0] == "";
    }
  }

  lemma TwoDigitsReads(n: nat)
    ensures |TwoDigits(n)| > 0 && AllDigits(TwoDigits(n)) && DecimalValue(TwoDigits(n)) == n
  {
    DecimalReads(n);
    if n < 10 {
      var s := TwoDigits(n);
      assert s[..1][..0] == "" && s[..1] == "0";
      assert DecimalValue(s[..1]) == 0;
    }
  }

  /** Digits written after a text that does not end in one are all that is taken. */
  lemma {:induction false} BeforeDigitsStops(p: string, ds: string)
    requires AllDigits(ds) && (p != "" ==> !IsDigit(p[|p| - 1]))
    ensures BeforeDigits(p + ds) == p
  {
    if ds == "" {
      assert p + ds == p;
    } else {
      var s := p + ds;
      assert s[..|s| - 1] == p + ds[..|ds| - 1];
      BeforeDigitsStops(p, ds[..|ds| - 1]);
    }
  }

  lemma TrimKeeps(s: string)
    requires s != "" ==> !IsSpace(s[|s| - 1])
    ensures Trim(s) == s
  {
  }

  /** A field written as digits behind a mark is read back. */
  lemma MarkedReads(p: string, ds: string, mark: char, a: char, b: char, c: char)
    requires AllDigits(ds) && ds != "" && (p != "" ==> !IsDigit(p[|p| - 1]))
    requires mark == a || mark == b || mark == c
    requires !IsSpace(mark)
    ensures Marked(p + ds + [mark], a, b, c) == Field(p, DecimalValue(ds))
  {
    var t := p + ds + [mark];
    var u := p + ds;
    TrimKeeps(t);
    assert t[..|t| - 1] == u;
    assert u[|u| - 1] == ds[|ds| - 1];
    TrimKeeps(u);
    BeforeDigitsStops(p, ds);
    assert u[|p|..] == ds;
  }

  /** Nothing is read for a field whose mark is missing. */
  lemma UnmarkedReads(p: string, a: char, b: char, c: char)
    requires p != "" ==> !IsSpace(p[|p| - 1])
    requires !EndsWith(p, a, b, c)
    ensures Marked(p, a, b, c) == Field(p, 0)
  {
    TrimKeeps(p);
  }

  lemma SecondsRead(p: string, ds: string)
    requires AllDigits(ds) && ds != ""
    requires p != "" ==> !IsDigit(p[|p| - 1]) && p[|p| - 1] != '.'
    ensures Seconds(p + ds) == Field(p, DecimalValue(ds) as real)
  {
    hide DecimalValue;
    hide WithFraction;
    hide Trim;
    hide BeforeDigits;
    var t := p + ds;
    assert IsDigit(t[|t| - 1]) && !EndsWith(t, 's', 'S', 's') by { assert t[|t| - 1] == ds[|ds| - 1]; }
    TrimKeeps(t);
    BeforeDigitsStops(p, ds);
    assert t[|p|..] == ds;
  }

  predicate IsSign(sign: string) {
    sign == "" || sign == "-"
  }

  lemma ReadsDays(sign: string, ds: string, hs: string, ms: string, ss: string)
    requires IsSign(sign)
    requires AllDigits(ds) && ds != "" && AllDigits(hs) && hs != ""
    requires AllDigits(ms) && ms != "" && AllDigits(ss) && ss != ""
    ensures MakeRelTime(sign + ds + "+" + hs + ":" + ms + ":" + ss)
         == Signed(sign, Total(DecimalValue(ds), DecimalValue(hs), DecimalValue(ms), DecimalValue(ss) as real))
  {
    hide Seconds;
    hide Marked;
    hide DecimalValue;
    hide Signed;
    hide Total;
    var p3 := sign + ds + "+";
    var p2 := p3 + hs + ":";
    var p1 := p2 + ms + ":";
    SecondsRead(p1, ss);
    MarkedReads(p2, ms, ':', 'm', 'M', ':');
    MarkedReads(p3, hs, ':', 'h', 'H', ':');
    MarkedReads(sign, ds, '+', 'd', 'D', '+');
  }

  lemma ReadsHours(sign: string, hs: string, ms: string, ss: string)
    requires IsSign(sign) && AllDigits(hs) && hs != "" && AllDigits(ms) && ms != "" && AllDigits(ss) && ss != ""
    ensures MakeRelTime(sign + hs + ":" + ms + ":" + ss)
         == Signed(sign, Total(0, DecimalValue(hs), DecimalValue(ms), DecimalValue(ss) as real))
  {
    hide Seconds;
    hide Marked;
    var p2 := sign + hs + ":";
    var p1 := p2 + ms + ":";
    SecondsRead(p1, ss);
    MarkedReads(p2, ms, ':', 'm', 'M', ':');
    MarkedReads(sign, hs, ':', 'h', 'H', ':');
    UnmarkedReads(sign, 'd', 'D', '+');
  }

  lemma ReadsMinutes(sign: string, ms: string, ss: string)
    requires IsSign(sign) && AllDigits(ms) && ms != "" && AllDigits(ss) && ss != ""
    ensures MakeRelTime(sign + ms + ":" + ss) == Signed(sign, Total(0, 0, DecimalValue(ms), DecimalValue(ss) as real))
  {
    hide Seconds;
    hide Marked;
    SecondsRead(sign + ms + ":", ss);
    MarkedReads(sign, ms, ':', 'm', 'M', ':');
    UnmarkedReads(sign, 'h', 'H', ':');
    UnmarkedReads(sign, 'd', 'D', '+');
  }

  lemma ReadsSeconds(sign: string, ss: string)
    requires IsSign(sign) && AllDigits(ss) && ss != ""
    ensures MakeRelTime(sign + ss) == Signed(sign, Total(0, 0, 0, DecimalValue(ss) as real))
  {
    hide Seconds;
    hide Marked;
    SecondsRead(sign, ss);
    UnmarkedReads(sign, 'm', 'M', ':');
    UnmarkedReads(sign, 'h', 'H', ':');
    UnmarkedReads(sign, 'd', 'D', '+');
  }

  /** Whichever of the four formats was chosen, the fields are read back. */
  lemma FieldsRead(sign: string, days: nat, hrs: nat, mins: nat, secs: nat)
    requires IsSign(sign)
    ensures MakeRelTime(sign + FieldsText(days, hrs, mins, secs)) == Signed(sign, Total(days, hrs, mins, secs as real))
  {
    var ss, ms, hs, ds := TwoDigits(secs), TwoDigits(mins), TwoDigits(hrs), Decimal(days);
    TwoDigitsReads(secs);
    TwoDigitsReads(mins);
    TwoDigitsReads(hrs);
    DecimalReads(days);
    hide MakeRelTime;
    hide Decimal;
    hide TwoDigits;
    hide DecimalValue;
    hide Signed;
    hide Total;
    var text := sign + FieldsText(days, hrs, mins, secs);
    if days != 0 {
      assert text == sign + ds + "+" + hs + ":" + ms + ":" + ss;
      ReadsDays(sign, ds, hs, ms, ss);
    } else if hrs != 0 {
      assert text == sign + hs + ":" + ms + ":" + ss;
      ReadsHours(sign, hs, ms, ss);
    } else if mins != 0 {
      assert text == sign + ms + ":" + ss;
      ReadsMinutes(sign, ms, ss);
    } else {
      ReadsSeconds(sign, ss);
    }
  }

  lemma SignRead(total: real)
    ensures Signed("", total) == Some(total)
    ensures Signed("-", total) == Some(-total)
  {
    TrimKeeps("-");
    assert "-"[..0] == "" && Trim("") == "";
  }

  /** Relative times round trip. */
  lemma RelTimeRoundTrip(n: int)
    requires FitsInt(n)
    ensures MakeRelTime(RelTimeText(n)) == Some(n as real)
  {
    hide MakeRelTime;
    hide FieldsText;
    hide Signed;
    var m := Magnitude(n);
    SignRead(m as real);
    FieldsRead(if n < 0 then "-" else "", m / 86400, m % 86400 / 3600, m % 3600 / 60, m % 60);
    SplitSeconds(m);
    assert "" + UnsignedText(m) == UnsignedText(m);
  }

  lemma {:induction false} DigitsJoin(a: string, b: string)
    requires AllDigits(a) && AllDigits(b)
    ensures AllDigits(a + b) && DecimalValue(a + b) == DecimalValue(a) * TenTo(|b|) + DecimalValue(b)
    decreases |b|
  {
    if b == "" {
      assert a + b == a;
    } else {
      var c := b[..|b| - 1];
      assert (a + b)[..|a + b| - 1] == a + c;
      DigitsJoin(a, c);
      assert DecimalValue(a) * (10 * TenTo(|c|)) == DecimalValue(a) * TenTo(|c|) * 10;
    }
  }

  lemma Scaled(x: real, f: real, p: real)
    requires p > 0.0
    ensures (x + f / p) * p == x * p + f
  {
    var q := f / p;
    assert q * p == f;
    assert (x + q) * p == x * p + q * p;
  }

  lemma RealProduct(n: int, p: int)
    ensures (n * p) as real == n as real * p as real
  {
  }

  lemma FractionScaled(n: nat, f: nat, k: nat)
    ensures WithFraction(n, f, k) * TenTo(k) as real == (n * TenTo(k) + f) as real
  {
    hide TenTo;
    Scaled(n as real, f as real, TenTo(k) as real);
    RealProduct(n, TenTo(k));
  }

  /** A fraction is worth its digits: shifted left by its places, the number is that of all its digits together. */
  lemma FractionWorth(a: string, b: string)
    requires AllDigits(a) && AllDigits(b)
    ensures AllDigits(a + b)
    ensures WithFraction(DecimalValue(a), DecimalValue(b), |b|) * TenTo(|b|) as real == DecimalValue(a + b) as real
  {
    hide *;
    DigitsJoin(a, b);
    FractionScaled(DecimalValue(a), DecimalValue(b), |b|);
  }

  lemma NumberReads(p: string, a: string, b: string)
    requires AllDigits(a) && AllDigits(b) && (p != "" ==> !IsDigit(p[|p| - 1]))
    ensures Number(p + a + "." + b) == Field(p, WithFraction(DecimalValue(a), DecimalValue(b), |b|))
  {
    var w := p + a;
    var u := w + "." + b;
    assert u == (w + ".") + b;
    BeforeDigitsStops(w + ".", b);
    BeforeDigitsStops(p, a);
    assert u[|w + "."|..] == b && (w + ".")[..|w|] == w && w[|p|..] == a;
    hide BeforeDigits;
    hide DecimalValue;
    hide WithFraction;
  }

  lemma SecondsAreNumber(u: string, letter: string)
    requires u != "" && IsDigit(u[|u| - 1]) && (letter == "" || letter == "s" || letter == "S")
    ensures Seconds(u + letter) == Number(u)
  {
    TrimKeeps(u);
    TrimKeeps(u + letter);
    hide Number;
    hide Trim;
    if letter == "" {
      assert u + letter == u;
    } else {
      assert (u + letter)[..|u|] == u;
    }
  }

  lemma SignIs(sign: string)
    requires IsSign(sign)
    ensures (sign == "" || sign == "-") && (sign != "" ==> !IsDigit(sign[|sign| - 1]))
  {
  }

  lemma SecondsFraction(p: string, a: string, b: string, letter: string)
    requires AllDigits(a) && AllDigits(b) && b != "" && (p != "" ==> !IsDigit(p[|p| - 1]))
    requires letter == "" || letter == "s" || letter == "S"
    ensures Seconds(p + a + "." + b + letter) == Field(p, WithFraction(DecimalValue(a), DecimalValue(b), |b|))
  {
    var u := p + a + "." + b;
    assert u[|u| - 1] == b[|b| - 1];
    assert IsDigit(u[|u| - 1]);
    hide *;
    NumberReads(p, a, b);
    SecondsAreNumber(u, letter);
  }

  /** A sign in front of the seconds is all there is. */
  lemma SignAlone(sign: string, text: string, x: real)
    requires IsSign(sign) && Seconds(text) == Field(sign, x)
    ensures MakeRelTime(text) == Some(if sign == "-" then -x else x)
  {
    hide Seconds;
    UnmarkedReads(sign, 'm', 'M', ':');
    UnmarkedReads(sign, 'h', 'H', ':');
    UnmarkedReads(sign, 'd', 'D', '+');
    SignRead(x);
    hide Marked;
    hide Signed;
    assert Total(0, 0, 0, x) == x;
  }

  /** Seconds with a fraction, with or without their letter, are read to their exact worth. */
  lemma FractionsRead(sign: string, a: string, b: string, letter: string)
    requires IsSign(sign) && AllDigits(a) && AllDigits(b) && b != ""
    requires letter == "" || letter == "s" || letter == "S"
    ensures var r := MakeRelTime(sign + a + "." + b + letter);
      && AllDigits(a + b) && r.Some?
      && (if sign == "-" then -r.value else r.value) * TenTo(|b|) as real == DecimalValue(a + b) as real
  {
    hide *;
    SignIs(sign);
    FractionWorth(a, b);
    SecondsFraction(sign, a, b, letter);
    SignAlone(sign, sign + a + "." + b + letter, WithFraction(DecimalValue(a), DecimalValue(b), |b|));
  }

  lemma LettersSplit(sign: string, ds: string, d: char, hs: string, h: char, ms: string, m: char, ss: string)
    requires IsSign(sign) && d in {'d', 'D', '+'} && h in {'h', 'H', ':'} && m in {'m', 'M', ':'}
    requires AllDigits(ds) && ds != "" && AllDigits(hs) && hs != ""
    requires AllDigits(ms) && ms != "" && AllDigits(ss) && ss != ""
    ensures MakeRelTime(sign + ds + [d] + hs + [h] + ms + [m] + ss)
         == Signed(sign, Total(DecimalValue(ds), DecimalValue(hs), DecimalValue(ms), DecimalValue(ss) as real))
  {
    hide Seconds;
    hide Marked;
    hide DecimalValue;
    hide Signed;
    hide Total;
    var p3 := sign + ds + [d];
    var p2 := p3 + hs + [h];
    var p1 := p2 + ms + [m];
    SecondsRead(p1, ss);
    MarkedReads(p2, ms, m, 'm', 'M', ':');
    MarkedReads(p3, hs, h, 'h', 'H', ':');
    MarkedReads(sign, ds, d, 'd', 'D', '+');
  }

  /** The fields may be marked by letters, small or capital, as well as by signs. */
  lemma LettersRead(sign: string, ds: string, d: char, hs: string, h: char, ms: string, m: char, ss: string)
    requires IsSign(sign) && d in {'d', 'D', '+'} && h in {'h', 'H', ':'} && m in {'m', 'M', ':'}
    requires AllDigits(ds) && ds != "" && AllDigits(hs) && hs != ""
    requires AllDigits(ms) && ms != "" && AllDigits(ss) && ss != ""
    ensures var n := DecimalValue(ds) * 86400 + DecimalValue(hs) * 3600 + DecimalValue(ms) * 60 + DecimalValue(ss);
      MakeRelTime(sign + ds + [d] + hs + [h] + ms + [m] + ss) == Some(if sign == "-" then -(n as real) else n as real)
  {
    hide *;
    SignIs(sign);
    LettersSplit(sign, ds, d, hs, h, ms, m, ss);
    TotalWhole(DecimalValue(ds), DecimalValue(hs), DecimalValue(ms), DecimalValue(ss));
    SignRead(Total(DecimalValue(ds), DecimalValue(hs), DecimalValue(ms), DecimalValue(ss) as real));
  }

  lemma TotalWhole(d: nat, h: nat, m: nat, s: nat)
    ensures Total(d, h, m, s as real) == (d * 86400 + h * 3600 + m * 60 + s) as real
  {
  }

  /** A text that ends with anything but a digit, a mark, a sign or white space is an error. */
  lemma StrayEndIsError(p: string, c: char)
    requires !IsDigit(c) && !IsSpace(c)
    requires c !in {'s', 'S', 'm', 'M', ':', 'h', 'H', 'd', 'D', '+', '-'}
    ensures MakeRelTime(p + [c]).None?
  {
    var t := p + [c];
    TrimKeeps(t);
    assert Seconds(t) == Field(t, 0.0) by {
      hide Trim;
      hide Number;
    }
    UnmarkedReads(t, 'm', 'M', ':');
    UnmarkedReads(t, 'h', 'H', ':');
    UnmarkedReads(t, 'd', 'D', '+');
    hide Seconds;
    hide Marked;
    hide Total;
  }

  lemma {:induction false} TrimDrops(s: string, gap: string)
    requires forall c :: c in gap ==> IsWhite(c)
    ensures Trim(s + gap) == Trim(s)
    decreases |gap|
  {
    if gap == "" {
      assert s + gap == s;
    } else {
      var n := |gap| - 1;
      assert gap[n] in gap && (s + gap)[..|s| + n] == s + gap[..n];
      TrimDrops(s, gap[..n]);
    }
  }

  /** The text is read from its last character that is no space. */
  lemma SecondsTrim(s: string, t: string)
    requires Trim(s) == Trim(t)
    ensures Seconds(s) == Seconds(t)
  {
    hide Trim;
    hide Number;
  }

  /** White space after the text makes no difference. */
  lemma TrailingSpace(s: string, gap: string)
    requires forall c :: c in gap ==> IsWhite(c)
    ensures MakeRelTime(s + gap) == MakeRelTime(s)
  {
    hide Seconds;
    hide Marked;
    hide Signed;
    TrimDrops(s, gap);
    SecondsTrim(s + gap, s);
  }

  /** Text that does not begin with a sign or a number is an error. */
  lemma JunkIsError(left: string, total: real)
    requires left != "" && left != "-" && forall c :: c in left ==> !IsSpace(c)
    ensures Signed(left, total).None?
  {
    TrimKeeps(left);
    if left[|left| - 1] == '-' { TrimKeeps(left[..|left| - 1]); }
  }

  lemma SplitSeconds(m: nat)
    ensures Total(m / 86400, m % 86400 / 3600, m % 3600 / 60, (m % 60) as real) == m as real
  {
    var d, h := m / 86400, m % 86400;
    assert m == d * 86400 + h;
    assert m % 3600 == h % 3600 by {
      assert h == h / 3600 * 3600 + h % 3600;
      assert m == (d * 24 + h / 3600) * 3600 + h % 3600;
      DivUnique(m, 3600, d * 24 + h / 3600, h % 3600);
    }
    var q := m % 3600;
    assert m % 60 == q % 60 by {
      assert m == (m / 3600 * 60 + q / 60) * 60 + q % 60;
      DivUnique(m, 60, m / 3600 * 60 + q / 60, q % 60);
    }
  }

  // ---------- the backward scan ----------

  /** The loop of `prevNonSpaceChar`: `i` is the length of the text not yet read. */
  method PrevNonSpaceChar(s: string, i: nat) returns (j: nat)
    requires i <= |s|
    ensures j <= i && s[..j] == Trim(s[..i])
  {
    j := i;
    while j > 0 && IsSpace(s[j - 1])
      invariant 0 <= j <= i
      invariant Trim(s[..j]) == Trim(s[..i])
    {
      assert s[..j][..j - 1] == s[..j - 1];
      j := j - 1;
    }
  }

  function Reversed(s: string): string {
    if s == "" then "" else Reversed(s[1..]) + [s[0]]
  }

  lemma {:induction false} ReversedGrows(s: string, c: char)
    ensures Reversed(s + [c]) == [c] + Reversed(s)
  {
    if s == "" {
      assert s + [c] == [c] && Reversed([c][1..]) == "";
    } else {
      ReversedGrows(s[1..], c);
      assert (s + [c])[1..] == s[1..] + [c];
    }
  }

  /** `revInt` and `revDouble` turn the digits of a number round again. */
  method TurnRound(reversed: string) returns (digits: string)
    ensures digits == Reversed(reversed)
  {
    digits := "";
    var k := |reversed|;
    assert reversed[..|reversed|] == reversed;
    while k > 0
      invariant 0 <= k <= |reversed|
      invariant digits + Reversed(reversed[..k]) == Reversed(reversed)
    {
      ReversedGrows(reversed[..k - 1], reversed[k - 1]);
      assert reversed[..k] == reversed[..k - 1] + [reversed[k - 1]];
      digits := digits + [reversed[k - 1]];
      k := k - 1;
    }
    assert digits + "" == digits;
  }

  /** Going backwards, digits are met in reverse. */
  method CollectDigits(s: string, i: nat) returns (j: nat, digits: string)
    requires i <= |s|
    ensures j <= i && s[..j] == BeforeDigits(s[..i]) && digits == s[j..i] && AllDigits(digits)
  {
    var reversed := "";
    assert Reversed(reversed) == "";
    hide Reversed;
    j := i;
    while j > 0 && IsDigit(s[j - 1])
      invariant 0 <= j <= i
      invariant BeforeDigits(s[..j]) == BeforeDigits(s[..i])
      invariant Reversed(reversed) == s[j..i]
      invariant AllDigits(s[j..i])
    {
      assert s[..j][..j - 1] == s[..j - 1];
      ReversedGrows(reversed, s[j - 1]);
      assert s[j - 1..i] == [s[j - 1]] + s[j..i];
      reversed := reversed + [s[j - 1]];
      j := j - 1;
    }
    digits := TurnRound(reversed);
  }

  lemma PrefixOfPrefix(s: string, i: nat, j: nat)
    requires j <= i <= |s|
    ensures s[..i][..j] == s[..j] && s[..i][j..] == s[j..i]
    ensures i > 0 ==> s[..i][i - 1] == s[i - 1]
  {
  }

  method ReadMarked(s: string, i: nat, a: char, b: char, c: char) returns (j: nat, value: nat)
    requires i <= |s|
    ensures j <= i && Field(s[..j], value) == Marked(s[..i], a, b, c)
  {
    hide DecimalValue;
    hide Trim;
    hide BeforeDigits;
    value := 0;
    j := PrevNonSpaceChar(s, i);
    if EndsWith(s[..j], a, b, c) {
      PrefixOfPrefix(s, j, j - 1);
      var k := PrevNonSpaceChar(s, j - 1);
      var digits;
      j, digits := CollectDigits(s, k);
      PrefixOfPrefix(s, k, j);
      value := DecimalValue(digits);
    }
  }

  method ReadNumber(s: string, i: nat) returns (j: nat, value: real)
    requires i <= |s|
    ensures j <= i && Field(s[..j], value) == Number(s[..i])
  {
    hide DecimalValue;
    hide WithFraction;
    hide BeforeDigits;
    var digits;
    j, digits := CollectDigits(s, i);
    PrefixOfPrefix(s, i, j);
    if j > 0 && s[j - 1] == '.' {
      PrefixOfPrefix(s, j, j - 1);
      var w := j - 1;
      var whole;
      j, whole := CollectDigits(s, w);
      PrefixOfPrefix(s, w, j);
      value := WithFraction(DecimalValue(whole), DecimalValue(digits), |digits|);
    } else {
      value := DecimalValue(digits) as real;
    }
  }

  method ReadSeconds(s: string, i: nat) returns (j: nat, value: real)
    requires i <= |s|
    ensures j <= i && Field(s[..j], value) == Seconds(s[..i])
  {
    hide Number;
    value := 0.0;
    j := PrevNonSpaceChar(s, i);
    PrefixOfPrefix(s, j, if j > 0 then j - 1 else 0);
    if j > 0 && (s[j - 1] == 's' || s[j - 1] == 'S' || IsDigit(s[j - 1])) {
      if s[j - 1] == 's' || s[j - 1] == 'S' {
        j := PrevNonSpaceChar(s, j - 1);
      }
      j, value := ReadNumber(s, j);
    }
  }

  method ReadSign(s: string, i: nat, total: real) returns (r: Option<real>)
    requires i <= |s|
    ensures r == Signed(s[..i], total)
  {
    var j := PrevNonSpaceChar(s, i);
    PrefixOfPrefix(s, j, if j > 0 then j - 1 else 0);
    var negative := false;
    if j > 0 && s[j - 1] == '-' {
      negative := true;
      j := j - 1;
    }
    j := PrevNonSpaceChar(s, j);
    r := if j > 0 then None else Some(if negative then -total else total);
  }

  /** `MakeRelTime`: one index moves from the end of the text to its start. */
  method ReadRelTime(s: string) returns (r: Option<real>)
    ensures r == MakeRelTime(s)
  {
    hide Seconds;
    hide Marked;
    hide Signed;
    assert s[..|s|] == s;
    var i, secs := ReadSeconds(s, |s|);
    var mins, hrs, days;
    i, mins := ReadMarked(s, i, 'm', 'M', ':');
    i, hrs := ReadMarked(s, i, 'h', 'H', ':');
    i, days := ReadMarked(s, i, 'd', 'D', '+');
    r := ReadSign(s, i, Total(days, hrs, mins, secs));
  }
}
