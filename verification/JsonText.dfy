/** JSON's strings and numbers, as text and back. */
module JsonText {
  import opened Wrappers
  import opened Wtf8

  /** A character of the text, by its code point. */
  type Text = seq<Char>

  datatype Result<+T> = Ok(value: T) | Err

  const QUOTE: Char := 0x22
  const BACKSLASH: Char := 0x5C

  predicate IsSurrogate(c: Char) { IsHigh(c) || IsLow(c) }

  // ---- Strings

  /** A digit of `{:04x}`. */
  function Hex(d: nat): Char
    requires d < 16
  {
    if d < 10 then 0x30 + d else 0x61 + d - 10
  }

  function Hex4(c: Char): Text
    requires c < 0x1_0000
  {
    [Hex(c / 4096), Hex(c / 256 % 16), Hex(c / 16 % 16), Hex(c % 16)]
  }

  /** What `quote_wtf8` writes for a code point. */
  function Escape(c: Char): (t: Text)
    ensures t != []
  {
    if c == QUOTE then [BACKSLASH, QUOTE]
    else if c == BACKSLASH then [BACKSLASH, BACKSLASH]
    else if c == 0x0A then [BACKSLASH, 0x6E]
    else if c == 0x0D then [BACKSLASH, 0x72]
    else if c == 0x09 then [BACKSLASH, 0x74]
    else if c < 0x20 || IsSurrogate(c) then [BACKSLASH, 0x75] + Hex4(c)
    else [c]
  }

  function EscapeAll(cs: seq<Char>): Text {
    if cs == [] then [] else Escape(cs[0]) + EscapeAll(cs[1..])
  }

  /** `quote_wtf8`. */
  function Quote(cs: seq<Char>): Text { [QUOTE] + EscapeAll(cs) + [QUOTE] }

  function HexDigit(c: Char): Option<nat> {
    if 0x30 <= c <= 0x39 then Some(c - 0x30)
    else if 0x61 <= c <= 0x66 then Some(c - 0x61 + 10)
    else if 0x41 <= c <= 0x46 then Some(c - 0x41 + 10)
    else None
  }

  /** `from_str_radix`, which takes a plus sign for a first digit. */
  function Radix16(t: Text): Option<nat>
    requires t != []
  {
    var digits := if t[0] == 0x2B then t[1..] else t;
    if digits == [] then None else DigitsValue(digits)
  }

  function DigitsValue(t: Text): Option<nat> {
    if t == [] then Some(0)
    else
      var init, last := DigitsValue(t[..|t| - 1]), HexDigit(t[|t| - 1]);
      if init.Some? && last.Some? then Some(init.value * 16 + last.value) else None
  }

  /** `parse_hex4`, at the start of `t`. */
  function ParseHex4(t: Text): Option<nat> {
    if |t| < 4 || exists i :: 0 <= i < 4 && t[i] >= 0x80 then None else Radix16(t[..4])
  }

  /** The character an escape other than `u` stands for. */
  function Unescape(c: Char): Option<Char> {
    if c == QUOTE || c == BACKSLASH || c == 0x2F then Some(c)
    else if c == 0x6E then Some(0x0A)
    else if c == 0x72 then Some(0x0D)
    else if c == 0x74 then Some(0x09)
    else if c == 0x62 then Some(0x08)
    else if c == 0x66 then Some(0x0C)
    else None
  }

  /** The low half `t` starts with an escape for, if it does. */
  function LowEscape(t: Text): Option<Unit> {
    if |t| < 2 || t[0] != BACKSLASH || t[1] != 0x75 then None
    else
      var lo := ParseHex4(t[2..]);
      if lo.Some? && IsLow(lo.value) then lo else None
  }

  /** One step of `parse_string`: the code point `t` starts with, and what follows. */
  function ParseChar(t: Text): (r: Result<(Char, Text)>)
    requires t != [] && t[0] != QUOTE
    ensures r.Ok? ==> |r.value.1| < |t|
  {
    if t[0] != BACKSLASH then Ok((t[0], t[1..]))
    else if |t| == 1 then Err
    else if t[1] == 0x75 then
      var hi := ParseHex4(t[2..]);
      if hi.None? then Err
      else
        var lo := LowEscape(t[6..]);
        if IsHigh(hi.value) && lo.Some? then Ok((Astral(hi.value, lo.value), t[12..])) else Ok((hi.value, t[6..]))
    else
      var c := Unescape(t[1]);
      if c.Some? then Ok((c.value, t[2..])) else Err
  }

  /** `parse_string`, past the opening quote. */
  function ParseChars(t: Text): (r: Result<(seq<Char>, Text)>)
    ensures r.Ok? ==> |r.value.1| < |t|
    decreases |t|
  {
    if t == [] then Err
    else if t[0] == QUOTE then Ok(([], t[1..]))
    else
      var c := ParseChar(t);
      if c.Err? then Err
      else
        var rest := ParseChars(c.value.1);
        if rest.Err? then Err else Ok(([c.value.0] + rest.value.0, rest.value.1))
  }

  lemma HexDigits(c: Char)
    requires c < 0x1_0000
    ensures ParseHex4(Hex4(c)) == Some(c)
  {
    var t := Hex4(c);
    assert t[..4] == t && t[0] != 0x2B;
    assert t[..3] == [t[0], t[1], t[2]] && t[..3][..2] == [t[0], t[1]] && t[..3][..2][..1] == [t[0]]
      && t[..3][..2][..1][..0] == [];
    HexOne(c / 4096);
    HexOne(c / 256 % 16);
    HexOne(c / 16 % 16);
    HexOne(c % 16);
    assert c / 4096 < 16;
    FourDigits(c);
    assert DigitsValue([t[0]]) == Some(c / 4096);
    assert DigitsValue([t[0], t[1]]) == Some(c / 4096 * 16 + c / 256 % 16);
    assert DigitsValue(t[..3]) == Some((c / 4096 * 16 + c / 256 % 16) * 16 + c / 16 % 16);
  }

  lemma FourDigits(c: nat)
    ensures ((c / 4096 * 16 + c / 256 % 16) * 16 + c / 16 % 16) * 16 + c % 16 == c
  {
    assert c == c / 16 * 16 + c % 16;
    assert c / 16 == c / 256 * 16 + c / 16 % 16;
    assert c / 256 == c / 4096 * 16 + c / 256 % 16;
  }

  lemma HexOne(d: nat)
    requires d < 16
    ensures HexDigit(Hex(d)) == Some(d) && Hex(d) < 0x80 && Hex(d) != 0x2B
  {
  }

  lemma HexPrefix(c: Char, rest: Text)
    requires c < 0x1_0000
    ensures ParseHex4(Hex4(c) + rest) == Some(c)
  {
    HexDigits(c);
    var t := Hex4(c) + rest;
    assert t[..4] == Hex4(c)[..4];
    HexOne(c / 4096);
    HexOne(c / 256 % 16);
    HexOne(c / 16 % 16);
    HexOne(c % 16);
  }

  /** What a printed code point reads back as, whatever follows it that is not a low half. */
  lemma ParseEscaped(c: Char, rest: Text)
    requires c <= CODE_POINT_MAX && (IsHigh(c) ==> LowEscape(rest).None?)
    ensures var t := Escape(c) + rest; t != [] && t[0] != QUOTE && ParseChar(t) == Ok((c, rest))
  {
    var t := Escape(c) + rest;
    if c < 0x20 || IsSurrogate(c) {
      if c != 0x0A && c != 0x0D && c != 0x09 {
        HexPrefix(c, rest);
        assert t[2..] == Hex4(c) + rest && t[6..] == rest;
      }
    }
  }

  /** Only a low surrogate is printed as the escape of one. */
  lemma NotLowEscape(cs: seq<Char>, rest: Text)
    requires Chars(cs) && (cs != [] ==> !IsLow(cs[0]))
    ensures LowEscape(EscapeAll(cs) + [QUOTE] + rest).None?
  {
    hide Escape, LowEscape;
    var t := EscapeAll(cs) + [QUOTE] + rest;
    if cs == [] {
      assert t == [QUOTE] + rest;
      QuoteIsNotLow(rest);
    } else {
      var after := EscapeAll(cs[1..]) + [QUOTE] + rest;
      assert t == Escape(cs[0]) + after;
      EscapeIsNotLow(cs[0], after);
    }
  }

  lemma QuoteIsNotLow(rest: Text)
    ensures LowEscape([QUOTE] + rest).None?
  {
  }

  lemma EscapeIsNotLow(c: Char, after: Text)
    requires c <= CODE_POINT_MAX && !IsLow(c)
    ensures LowEscape(Escape(c) + after).None?
  {
    hide ParseHex4, Hex4;
    var t := Escape(c) + after;
    if (c < 0x20 || IsSurrogate(c)) && c != 0x0A && c != 0x0D && c != 0x09 {
      HexPrefix(c, after);
      assert t[2..] == Hex4(c) + after;
    }
  }

  /** A printed string reads back as itself: lone surrogates too, and no pair is made of two
      that were apart. */
  lemma {:induction false} ParseQuoted(cs: seq<Char>, rest: Text)
    requires Chars(cs) && Paired(cs)
    ensures ParseChars(EscapeAll(cs) + [QUOTE] + rest) == Ok((cs, rest))
  {
    hide Escape, ParseChar, LowEscape;
    var t := EscapeAll(cs) + [QUOTE] + rest;
    if cs == [] {
      assert t == [QUOTE] + rest;
    } else {
      var after := EscapeAll(cs[1..]) + [QUOTE] + rest;
      assert t == Escape(cs[0]) + after;
      ParseQuoted(cs[1..], rest);
      if IsHigh(cs[0]) { NotLowEscape(cs[1..], rest); }
      ParseEscaped(cs[0], after);
      assert [cs[0]] + cs[1..] == cs;
    }
  }

  // ---- Numbers

  predicate IsDigit(c: Char) { 0x30 <= c <= 0x39 }

  /** The parts of a number's text: it stands for the number. `whole` is `0` or starts with
      another digit; `exp` holds the exponent's letter and sign. */
  datatype Numeral = Numeral(negative: bool, whole: Text, frac: Option<Text>, exp: Option<(Text, Text)>)

  predicate Digits(t: Text) {
    t != [] && forall i | 0 <= i < |t| :: IsDigit(t[i])
  }

  predicate ExpMark(t: Text) {
    1 <= |t| <= 2 && (t[0] == 0x65 || t[0] == 0x45) && (|t| == 2 ==> t[1] == 0x2B || t[1] == 0x2D)
  }

  predicate NumeralOk(n: Numeral) {
    && Digits(n.whole) && (n.whole[0] == 0x30 ==> |n.whole| == 1)
    && (n.frac.Some? ==> Digits(n.frac.value))
    && (n.exp.Some? ==> ExpMark(n.exp.value.0) && Digits(n.exp.value.1))
  }

  function SignText(negative: bool): Text { if negative then [0x2D] else [] }

  function FracText(f: Option<Text>): Text { if f.Some? then [0x2E] + f.value else [] }

  function ExpText(e: Option<(Text, Text)>): Text { if e.Some? then e.value.0 + e.value.1 else [] }

  function NumeralText(n: Numeral): Text {
    SignText(n.negative) + n.whole + FracText(n.frac) + ExpText(n.exp)
  }

  lemma Joined(a: Text, b: Text, c: Text, d: Text, rest: Text)
    ensures a + b + c + d + rest == a + (b + (c + (d + rest)))
  {
  }

  /** The digits `t` starts with. */
  function Run(t: Text): (n: nat)
    ensures n <= |t| && (forall i | 0 <= i < n :: IsDigit(t[i])) && (n < |t| ==> !IsDigit(t[n]))
  {
    if t == [] || !IsDigit(t[0]) then 0 else 1 + Run(t[1..])
  }

  function ParseSign(t: Text): (bool, Text) {
    if t != [] && t[0] == 0x2D then (true, t[1..]) else (false, t)
  }

  /** `0`, or digits that do not start with one. */
  function ParseWhole(t: Text): (r: Result<(Text, Text)>)
    ensures r.Ok? ==> |r.value.1| < |t|
  {
    var n := if t != [] && t[0] == 0x30 then 1 else Run(t);
    if n == 0 then Err else Ok((t[..n], t[n..]))
  }

  /** The number branch of `parse_value`. */
  function ParseNumber(t: Text): (r: Result<(Numeral, Text)>)
    ensures r.Ok? ==> |r.value.1| < |t|
  {
    var (negative, t1) := ParseSign(t);
    var whole := ParseWhole(t1);
    if whole.Err? then Err
    else
      var frac := ParseFrac(whole.value.1);
      if frac.Err? then Err
      else
        var exp := ParseExp(frac.value.1);
        if exp.Err? then Err else Ok((Numeral(negative, whole.value.0, frac.value.0, exp.value.0), exp.value.1))
  }

  /** A number is accepted only in the exact form of the grammar, and is the text it was read
      from. */
  lemma NumberIsItsText(t: Text)
    requires ParseNumber(t).Ok?
    ensures var (n, rest) := ParseNumber(t).value; NumeralOk(n) && NumeralText(n) + rest == t
  {
    hide ParseFrac, ParseExp, ParseWhole, ParseSign, Digits, ExpMark, SignText, FracText, ExpText;
    var (negative, t1) := ParseSign(t);
    var (whole, t2) := ParseWhole(t1).value;
    var (frac, t3) := ParseFrac(t2).value;
    var (exp, t4) := ParseExp(t3).value;
    SignIsItsText(t);
    WholeIsItsText(t1);
    FracIsItsText(t2);
    ExpIsItsText(t3);
    Joined(SignText(negative), whole, FracText(frac), ExpText(exp), t4);
  }

  lemma SignIsItsText(t: Text)
    ensures var (negative, rest) := ParseSign(t); SignText(negative) + rest == t
  {
  }

  lemma WholeIsItsText(t: Text)
    requires ParseWhole(t).Ok?
    ensures var (whole, rest) := ParseWhole(t).value;
      Digits(whole) && (whole[0] == 0x30 ==> |whole| == 1) && whole + rest == t
  {
  }

  lemma FracIsItsText(t: Text)
    requires ParseFrac(t).Ok?
    ensures var (f, rest) := ParseFrac(t).value; (f.Some? ==> Digits(f.value)) && FracText(f) + rest == t
  {
  }

  lemma ExpIsItsText(t: Text)
    requires ParseExp(t).Ok?
    ensures var (e, rest) := ParseExp(t).value;
      (e.Some? ==> ExpMark(e.value.0) && Digits(e.value.1)) && ExpText(e) + rest == t
  {
    if t != [] && (t[0] == 0x65 || t[0] == 0x45) {
      var m := if |t| > 1 && (t[1] == 0x2B || t[1] == 0x2D) then 2 else 1;
      var n := Run(t[m..]);
      RunDigits(t[m..]);
      CutInThree(t, m, n);
    }
  }

  lemma RunDigits(t: Text)
    ensures Run(t) > 0 ==> Digits(t[..Run(t)])
  {
  }

  lemma CutInThree(t: Text, m: nat, n: nat)
    requires m <= |t| && n <= |t[m..]|
    ensures t[..m] + t[m..][..n] + t[m..][n..] == t
  {
  }

  function ParseFrac(t: Text): (r: Result<(Option<Text>, Text)>)
    ensures r.Ok? ==> |r.value.1| <= |t|
  {
    if t == [] || t[0] != 0x2E then Ok((None, t))
    else
      var n := Run(t[1..]);
      if n == 0 then Err else Ok((Some(t[1..][..n]), t[1..][n..]))
  }

  function ParseExp(t: Text): (r: Result<(Option<(Text, Text)>, Text)>)
    ensures r.Ok? ==> |r.value.1| <= |t|
  {
    if t == [] || (t[0] != 0x65 && t[0] != 0x45) then Ok((None, t))
    else
      var m := if |t| > 1 && (t[1] == 0x2B || t[1] == 0x2D) then 2 else 1;
      var n := Run(t[m..]);
      if n == 0 then Err else Ok((Some((t[..m], t[m..][..n])), t[m..][n..]))
  }

  /** What may follow a number without becoming part of it. */
  predicate EndsNumber(rest: Text) {
    rest == [] || !(IsDigit(rest[0]) || rest[0] == 0x2E || rest[0] == 0x65 || rest[0] == 0x45)
  }

  lemma {:induction false} RunOf(d: Text, rest: Text)
    requires forall i | 0 <= i < |d| :: IsDigit(d[i])
    requires rest == [] || !IsDigit(rest[0])
    ensures Run(d + rest) == |d|
  {
    if d == [] {
      assert d + rest == rest;
    } else {
      RunOf(d[1..], rest);
      assert (d + rest)[1..] == d[1..] + rest;
    }
  }

  lemma ParseExpOf(e: Option<(Text, Text)>, rest: Text)
    requires (e.Some? ==> ExpMark(e.value.0) && Digits(e.value.1)) && EndsNumber(rest)
    ensures ParseExp(ExpText(e) + rest) == Ok((e, rest))
  {
    hide Run;
    if e.Some? {
      ExpReads(e.value.0, e.value.1, rest);
    } else {
      assert ExpText(e) + rest == rest;
    }
  }

  lemma ExpReads(mark: Text, digits: Text, rest: Text)
    requires ExpMark(mark) && Digits(digits) && EndsNumber(rest)
    ensures ParseExp(mark + digits + rest) == Ok((Some((mark, digits)), rest))
  {
    hide Run;
    var m, after := |mark|, digits + rest;
    assert mark + digits + rest == mark + after;
    RunOf(digits, rest);
    Parted(mark, after);
    Parted(digits, rest);
    assert m == 1 ==> (mark + after)[1] == digits[0];
  }

  lemma Parted(a: Text, b: Text)
    ensures (a + b)[..|a|] == a && (a + b)[|a|..] == b
  {
  }

  lemma ParseFracOf(f: Option<Text>, rest: Text)
    requires (f.Some? ==> Digits(f.value)) && (rest == [] || !(IsDigit(rest[0]) || rest[0] == 0x2E))
    ensures ParseFrac(FracText(f) + rest) == Ok((f, rest))
  {
    hide Run;
    if f.Some? {
      RunOf(f.value, rest);
      Parted([0x2E], f.value + rest);
      Parted(f.value, rest);
      assert [0x2E] + f.value + rest == [0x2E] + (f.value + rest);
    } else {
      assert FracText(f) + rest == rest;
    }
  }

  /** A number's text reads back as that number, and no further. */
  lemma ParseNumeral(n: Numeral, rest: Text)
    requires NumeralOk(n) && EndsNumber(rest)
    ensures ParseNumber(NumeralText(n) + rest) == Ok((n, rest))
  {
    hide Run, ParseFrac, ParseExp, ParseWhole, ParseSign, SignText, FracText, ExpText;
    var e := ExpText(n.exp) + rest;
    var f := FracText(n.frac) + e;
    var w := n.whole + f;
    Joined(SignText(n.negative), n.whole, FracText(n.frac), ExpText(n.exp), rest);
    StartsAfter(n, rest);
    ParseExpOf(n.exp, rest);
    ParseFracOf(n.frac, e);
    ParseWholeOf(n.whole, f);
    ParseSignOf(n.negative, w);
  }

  /** No part of a number's text starts as a longer one before it could go on. */
  lemma StartsAfter(n: Numeral, rest: Text)
    requires NumeralOk(n) && EndsNumber(rest)
    ensures var e := ExpText(n.exp) + rest; var f := FracText(n.frac) + e;
      && (e == [] || !(IsDigit(e[0]) || e[0] == 0x2E))
      && (f == [] || !IsDigit(f[0]))
      && n.whole + f != [] && IsDigit((n.whole + f)[0])
  {
  }

  lemma ParseSignOf(negative: bool, w: Text)
    requires w != [] && IsDigit(w[0])
    ensures ParseSign(SignText(negative) + w) == (negative, w)
  {
    if negative { assert ([0x2D] + w)[1..] == w; } else { assert [] + w == w; }
  }

  lemma ParseWholeOf(d: Text, rest: Text)
    requires Digits(d) && (d[0] == 0x30 ==> |d| == 1) && (rest == [] || !IsDigit(rest[0]))
    ensures ParseWhole(d + rest) == Ok((d, rest))
  {
    hide Run;
    RunOf(d, rest);
    Parted(d, rest);
  }
}
