/** WTF-8: UTF-8 that may also hold lone surrogates. A canonical string never holds a high
    surrogate right before a low one, so it is the only bytes for its UTF-16 units. */
module Wtf8 {
  import opened Wrappers

  type Byte = b: nat | b < 256
  /** A code point, surrogates included. */
  type Char = nat
  type Unit = nat

  const CODE_POINT_MAX: nat := 0x10_FFFF

  predicate IsHigh(c: Char) { 0xD800 <= c <= 0xDBFF }

  predicate IsLow(c: Char) { 0xDC00 <= c <= 0xDFFF }

  // ---- One code point

  /** `encode_code_point`. */
  function Encode(cp: Char): (b: seq<Byte>)
    ensures b != []
  {
    var c := if cp > CODE_POINT_MAX then 0xFFFD else cp;
    if c < 0x80 then [c]
    else if c < 0x800 then [0xC0 + c / 64, 0x80 + c % 64]
    else if c < 0x1_0000 then [0xE0 + c / 4096, 0x80 + c / 64 % 64, 0x80 + c % 64]
    else [0xF0 + c / 262_144, 0x80 + c / 4096 % 64, 0x80 + c / 64 % 64, 0x80 + c % 64]
  }

  /** A continuation byte's six bits. */
  function Low6(b: Byte): int { b as int % 64 }

  /** `decode_code_point`: the code point `b` starts with and its length. */
  function Decode(b: seq<Byte>): (r: (Char, nat))
    requires b != []
    ensures 1 <= r.1 <= |b|
  {
    var lead: int := b[0] as int;
    if lead < 0x80 then (lead, 1)
    else if lead < 0xE0 && |b| > 1 then (lead % 32 * 64 + Low6(b[1]), 2)
    else if 0xE0 <= lead < 0xF0 && |b| > 2 then (lead % 16 * 4096 + Low6(b[1]) * 64 + Low6(b[2]), 3)
    else if 0xF0 <= lead && |b| > 3 then (lead % 8 * 262_144 + Low6(b[1]) * 4096 + Low6(b[2]) * 64 + Low6(b[3]), 4)
    else (0xFFFD as nat, 1)
  }

  lemma DecodeEncode(c: Char, rest: seq<Byte>)
    requires c <= CODE_POINT_MAX
    ensures Decode(Encode(c) + rest) == (c, |Encode(c)|)
  {
    var e, b := Encode(c), Encode(c) + rest;
    assert forall i | 0 <= i < |e| :: b[i] == e[i];
    Digits(c);
    if c < 0x80 {
    } else if c < 0x800 {
      LeadBits(c / 64);
      Low6Of(c % 64);
    } else if c < 0x1_0000 {
      LeadBits(c / 4096);
      Low6Of(c / 64 % 64);
      Low6Of(c % 64);
    } else {
      LeadBits(c / 262_144);
      Low6Of(c / 4096 % 64);
      Low6Of(c / 64 % 64);
      Low6Of(c % 64);
    }
  }

  lemma Digits(c: nat)
    ensures c == c / 64 * 64 + c % 64 && c / 64 == c / 4096 * 64 + c / 64 % 64
      && c / 4096 == c / 262_144 * 64 + c / 4096 % 64
  {
  }

  lemma LeadBits(x: nat)
    ensures x < 32 ==> (0xC0 + x) % 32 == x
    ensures x < 16 ==> (0xE0 + x) % 16 == x
    ensures x < 8 ==> (0xF0 + x) % 8 == x
  {
  }

  lemma Low6Of(x: nat)
    requires x < 64
    ensures Low6(0x80 + x) == x
  {
  }

  // ---- Strings

  function EncodeAll(cs: seq<Char>): seq<Byte> {
    if cs == [] then [] else Encode(cs[0]) + EncodeAll(cs[1..])
  }

  /** `code_points`. */
  function Text(b: seq<Byte>): seq<Char> {
    if b == [] then [] else [Decode(b).0] + Text(b[Decode(b).1..])
  }

  ghost predicate Chars(cs: seq<Char>) {
    forall i | 0 <= i < |cs| :: cs[i] <= CODE_POINT_MAX
  }

  /** No surrogate pair is left as two code points. */
  ghost predicate Paired(cs: seq<Char>) {
    forall i | 0 <= i < |cs| - 1 :: !(IsHigh(cs[i]) && IsLow(cs[i + 1]))
  }

  ghost predicate Canonical(b: seq<Byte>) {
    Chars(Text(b)) && EncodeAll(Text(b)) == b && Paired(Text(b))
  }

  lemma {:induction false} TextOfEncoded(cs: seq<Char>)
    requires Chars(cs)
    ensures Text(EncodeAll(cs)) == cs
  {
    hide Encode, Decode;
    if cs != [] {
      DecodeEncode(cs[0], EncodeAll(cs[1..]));
      TextOfEncoded(cs[1..]);
      assert EncodeAll(cs)[|Encode(cs[0])|..] == EncodeAll(cs[1..]);
    }
  }

  lemma EncodedIsCanonical(cs: seq<Char>)
    requires Chars(cs) && Paired(cs)
    ensures Canonical(EncodeAll(cs)) && Text(EncodeAll(cs)) == cs
  {
    TextOfEncoded(cs);
  }

  lemma {:induction false} EncodeAppend(a: seq<Char>, b: seq<Char>)
    ensures EncodeAll(a + b) == EncodeAll(a) + EncodeAll(b)
  {
    hide Encode;
    if a == [] {
      assert a + b == b;
    } else {
      EncodeAppend(a[1..], b);
      assert (a + b)[1..] == a[1..] + b;
    }
  }

  // ---- UTF-16 units

  function UnitsOf(c: Char): (us: seq<Unit>)
    ensures 1 <= |us| <= 2
  {
    if c >= 0x1_0000 then [0xD800 + (c - 0x1_0000) / 1024, 0xDC00 + (c - 0x1_0000) % 1024] else [c]
  }

  /** `utf16_units`, of code points. */
  function Units(cs: seq<Char>): seq<Unit> {
    if cs == [] then [] else UnitsOf(cs[0]) + Units(cs[1..])
  }

  /** The UTF-16 units of a stored string. */
  function UnitsIn(b: seq<Byte>): seq<Unit> { Units(Text(b)) }

  lemma {:induction false} UnitsAppend(a: seq<Char>, b: seq<Char>)
    ensures Units(a + b) == Units(a) + Units(b)
  {
    hide UnitsOf;
    if a == [] {
      assert a + b == b;
    } else {
      UnitsAppend(a[1..], b);
      assert (a + b)[1..] == a[1..] + b;
    }
  }

  /** The scalar a surrogate pair denotes. */
  function Astral(hi: Unit, lo: Unit): (c: Char)
    requires IsHigh(hi) && IsLow(lo)
    ensures 0x1_0000 <= c <= CODE_POINT_MAX && UnitsOf(c) == [hi, lo]
  {
    0x1_0000 + (hi - 0xD800) * 1024 + (lo - 0xDC00)
  }

  /** `from_utf16`, to code points. */
  function FromUnits(us: seq<Unit>): seq<Char> {
    if us == [] then []
    else if |us| > 1 && IsHigh(us[0]) && IsLow(us[1]) then [Astral(us[0], us[1])] + FromUnits(us[2..])
    else [us[0]] + FromUnits(us[1..])
  }

  /** Any units at all can be stored, canonically, and come back. */
  lemma {:induction false} FromUnitsLaw(us: seq<Unit>)
    requires forall i | 0 <= i < |us| :: us[i] < 0x1_0000
    ensures var cs := FromUnits(us);
      && Units(cs) == us && Chars(cs) && Paired(cs)
      && (us != [] ==> cs != [] && (IsLow(cs[0]) <==> IsLow(us[0])))
  {
    if us != [] {
      if |us| > 1 && IsHigh(us[0]) && IsLow(us[1]) {
        FromUnitsLaw(us[2..]);
        assert us == [us[0], us[1]] + us[2..];
        assert FromUnits(us)[1..] == FromUnits(us[2..]);
      } else {
        FromUnitsLaw(us[1..]);
        assert us == [us[0]] + us[1..];
        assert FromUnits(us)[1..] == FromUnits(us[1..]);
      }
    }
  }

  /** Canonical text is determined by its units. */
  lemma {:induction false} FromUnitsOfUnits(cs: seq<Char>)
    requires Chars(cs) && Paired(cs)
    ensures FromUnits(Units(cs)) == cs
  {
    if cs != [] {
      FromUnitsOfUnits(cs[1..]);
      var us := Units(cs[1..]);
      if |cs| > 1 { FirstUnit(cs[1..]); }
      if cs[0] >= 0x1_0000 {
        var pair := UnitsOf(cs[0]);
        assert IsHigh(pair[0]) && IsLow(pair[1]) && Astral(pair[0], pair[1]) == cs[0];
        assert (pair + us)[2..] == us;
      } else {
        assert ([cs[0]] + us)[1..] == us;
      }
    }
  }

  lemma FirstUnit(cs: seq<Char>)
    requires cs != [] && Chars(cs)
    ensures Units(cs) != [] && (IsLow(Units(cs)[0]) <==> IsLow(cs[0]))
  {
  }

  /** Two canonical strings are the same bytes exactly when they are the same units. */
  lemma SameUnitsSameBytes(a: seq<Byte>, b: seq<Byte>)
    requires Canonical(a) && Canonical(b)
    ensures a == b <==> UnitsIn(a) == UnitsIn(b)
  {
    FromUnitsOfUnits(Text(a));
    FromUnitsOfUnits(Text(b));
  }

  // ---- Reading bytes without decoding

  /** `utf16_len`: every byte that starts a code point counts one, and one more if it starts
      four bytes. */
  function Utf16Len(b: seq<Byte>): nat {
    if b == [] then 0
    else (if b[0] / 64 != 2 then 1 else 0) + (if b[0] >= 0xF0 then 1 else 0) + Utf16Len(b[1..])
  }

  lemma {:induction false} Utf16LenAppend(a: seq<Byte>, b: seq<Byte>)
    ensures Utf16Len(a + b) == Utf16Len(a) + Utf16Len(b)
  {
    if a == [] {
      assert a + b == b;
    } else {
      Utf16LenAppend(a[1..], b);
      assert (a + b)[1..] == a[1..] + b;
    }
  }

  lemma Utf16LenOfOne(c: Char)
    requires c <= CODE_POINT_MAX
    ensures Utf16Len(Encode(c)) == |UnitsOf(c)|
  {
    var e := Encode(c);
    Utf16LenStep(e);
    if c < 0x80 {
    } else if c < 0x800 {
      assert e[1..] == [0x80 + c % 64];
      Continuation([], c % 64);
    } else if c < 0x1_0000 {
      assert e[1..] == [0x80 + c / 64 % 64] + [0x80 + c % 64];
      Continuation([], c % 64);
      Continuation([0x80 + c % 64], c / 64 % 64);
    } else {
      assert e[1..] == [0x80 + c / 4096 % 64] + ([0x80 + c / 64 % 64] + [0x80 + c % 64]);
      Continuation([], c % 64);
      Continuation([0x80 + c % 64], c / 64 % 64);
      Continuation([0x80 + c / 64 % 64] + [0x80 + c % 64], c / 4096 % 64);
    }
  }

  lemma Utf16LenStep(b: seq<Byte>)
    requires b != []
    ensures Utf16Len(b) == (if b[0] / 64 != 2 then 1 else 0) + (if b[0] >= 0xF0 then 1 else 0) + Utf16Len(b[1..])
  {
  }

  lemma Continuation(rest: seq<Byte>, x: nat)
    requires x < 64
    ensures Utf16Len([0x80 + x] + rest) == Utf16Len(rest)
    ensures rest == [] ==> Utf16Len([0x80 + x]) == 0
  {
    assert ([0x80 + x] + rest)[1..] == rest;
    assert rest == [] ==> [0x80 + x] + rest == [0x80 + x];
  }

  lemma {:induction false} Utf16LenOfText(cs: seq<Char>)
    requires Chars(cs)
    ensures Utf16Len(EncodeAll(cs)) == |Units(cs)|
  {
    hide Encode, UnitsOf, Utf16Len;
    if cs != [] {
      Utf16LenOfOne(cs[0]);
      Utf16LenAppend(Encode(cs[0]), EncodeAll(cs[1..]));
      Utf16LenOfText(cs[1..]);
    } else {
      Utf16LenOfNothing();
    }
  }

  lemma Utf16LenOfNothing()
    ensures Utf16Len([]) == 0
  {
  }

  /** Counting bytes counts units. */
  lemma Utf16LenCounts(b: seq<Byte>)
    requires Canonical(b)
    ensures Utf16Len(b) == |UnitsIn(b)|
  {
    Utf16LenOfText(Text(b));
  }

  /** `decode_surrogate3`. */
  function Surrogate3(b: seq<Byte>): Option<Unit>
    requires |b| == 3
  {
    if b[0] != 0xED || b[1] / 64 != 2 || b[2] / 64 != 2 then None
    else
      var cp: nat := b[0] as int % 16 * 4096 + Low6(b[1]) * 64 + Low6(b[2]);
      if IsHigh(cp) || IsLow(cp) then Some(cp) else None
  }

  function TrailingHigh(b: seq<Byte>): Option<Unit> {
    if |b| < 3 then None
    else
      var u := Surrogate3(b[|b| - 3..]);
      if u.Some? && IsHigh(u.value) then u else None
  }

  function LeadingLow(b: seq<Byte>): Option<Unit> {
    if |b| < 3 then None
    else
      var u := Surrogate3(b[..3]);
      if u.Some? && IsLow(u.value) then u else None
  }

  /** The first three bytes tell whether the first code point is a low surrogate. */
  lemma LeadingLowIsFirst(b: seq<Byte>)
    requires Canonical(b)
    ensures var cs := Text(b);
      LeadingLow(b) == if cs != [] && IsLow(cs[0]) then Some(cs[0]) else None
  {
    var cs := Text(b);
    if cs != [] { LeadingOfFirst(cs[0], EncodeAll(cs[1..])); }
  }

  lemma LeadingOfFirst(c: Char, rest: seq<Byte>)
    requires c <= CODE_POINT_MAX
    ensures LeadingLow(Encode(c) + rest) == if IsLow(c) then Some(c) else None
  {
    var e := Encode(c);
    var b := e + rest;
    if c < 0x800 {
    } else if c < 0x1_0000 {
      assert b[..3] == e;
    } else {
    }
  }

  /** The last three bytes tell whether the last code point is a high surrogate. */
  lemma TrailingHighIsLast(b: seq<Byte>)
    requires Canonical(b)
    ensures var cs := Text(b);
      TrailingHigh(b) == if cs != [] && IsHigh(cs[|cs| - 1]) then Some(cs[|cs| - 1]) else None
  {
    var cs := Text(b);
    if cs != [] {
      var n := |cs| - 1;
      assert cs == cs[..n] + [cs[n]];
      EncodeAppend(cs[..n], [cs[n]]);
      assert EncodeAll([cs[n]]) == Encode(cs[n]);
      TrailingOfLast(EncodeAll(cs[..n]), cs[n]);
    }
  }

  lemma TrailingOfLast(init: seq<Byte>, c: Char)
    requires c <= CODE_POINT_MAX
    ensures TrailingHigh(init + Encode(c)) == if IsHigh(c) then Some(c) else None
  {
    hide Encode, Surrogate3;
    var e, b := Encode(c), init + Encode(c);
    EncodeWidth(c);
    if |b| >= 3 {
      var t := b[|b| - 3..];
      assert t[2] == e[|e| - 1] && (|e| >= 2 ==> t[1] == e[|e| - 2]);
      assert |e| == 3 ==> t == e;
      assert |e| == 4 ==> t == e[1..];
      SurrogateEnd(c, t);
    }
  }

  lemma EncodeWidth(c: Char)
    requires c <= CODE_POINT_MAX
    ensures |Encode(c)| == if c < 0x80 then 1 else if c < 0x800 then 2 else if c < 0x1_0000 then 3 else 4
  {
  }

  /** The last three bytes of a string that ends in `c`. */
  lemma SurrogateEnd(c: Char, t: seq<Byte>)
    requires c <= CODE_POINT_MAX && |t| == 3
    requires var e := Encode(c);
      && t[2] == e[|e| - 1] && (|e| >= 2 ==> t[1] == e[|e| - 2]) && (|e| == 3 ==> t == e) && (|e| == 4 ==> t == e[1..])
    ensures Surrogate3(t) == if IsHigh(c) || IsLow(c) then Some(c) else None
  {
    if 0x800 <= c < 0x1_0000 { SurrogateOfThree(c); }
  }

  lemma SurrogateOfThree(c: Char)
    requires 0x800 <= c < 0x1_0000
    ensures |Encode(c)| == 3 && Surrogate3(Encode(c)) == if IsHigh(c) || IsLow(c) then Some(c) else None
  {
    Digits(c);
    Low6Of(c / 64 % 64);
    Low6Of(c % 64);
    LeadBits(c / 4096);
  }

  // ---- Joining

  /** `append`: a surrogate pair that meets at the seam becomes one code point. */
  function Append(a: seq<Byte>, b: seq<Byte>): seq<Byte> {
    if TrailingHigh(a).Some? && LeadingLow(b).Some? then
      a[..|a| - 3] + Encode(Astral(TrailingHigh(a).value, LeadingLow(b).value)) + b[3..]
    else a + b
  }

  lemma EncodedSurrogate(c: Char)
    requires IsHigh(c) || IsLow(c)
    ensures |Encode(c)| == 3
  {
  }

  /** Joining keeps the form canonical and joins the units. */
  lemma AppendLaw(a: seq<Byte>, b: seq<Byte>)
    requires Canonical(a) && Canonical(b)
    ensures Canonical(Append(a, b)) && UnitsIn(Append(a, b)) == UnitsIn(a) + UnitsIn(b)
    ensures |Append(a, b)| <= |a| + |b|
  {
    hide Canonical, Encode, EncodeAll, Text, Units, UnitsIn, UnitsOf, TrailingHigh, LeadingLow, Astral;
    CanonicalParts(a);
    CanonicalParts(b);
    TrailingHighIsLast(a);
    LeadingLowIsFirst(b);
    var cs, ds := Text(a), Text(b);
    if TrailingHigh(a).Some? && LeadingLow(b).Some? {
      JoinAtSeam(cs[..|cs| - 1], cs[|cs| - 1], ds[0], ds[1..]);
      assert cs == cs[..|cs| - 1] + [cs[|cs| - 1]] && ds == [ds[0]] + ds[1..];
      assert a[..|a| - 3] == EncodeAll(cs[..|cs| - 1]) && b[3..] == EncodeAll(ds[1..]);
    } else {
      EncodeAppend(cs, ds);
      UnitsAppend(cs, ds);
      PairedAppend(cs, ds);
      EncodedIsCanonical(cs + ds);
      CanonicalParts(a + b);
    }
  }

  lemma CanonicalParts(b: seq<Byte>)
    requires Canonical(b)
    ensures Chars(Text(b)) && Paired(Text(b)) && EncodeAll(Text(b)) == b && UnitsIn(b) == Units(Text(b))
  {
  }

  lemma PairedAppend(cs: seq<Char>, ds: seq<Char>)
    requires Chars(cs) && Paired(cs) && Chars(ds) && Paired(ds)
    requires cs != [] && ds != [] ==> !(IsHigh(cs[|cs| - 1]) && IsLow(ds[0]))
    ensures Chars(cs + ds) && Paired(cs + ds)
  {
  }

  lemma JoinAtSeam(init: seq<Char>, hi: Unit, lo: Unit, rest: seq<Char>)
    requires IsHigh(hi) && IsLow(lo)
    requires Chars(init + [hi]) && Paired(init + [hi]) && Chars([lo] + rest) && Paired([lo] + rest)
    ensures var r := EncodeAll(init) + Encode(Astral(hi, lo)) + EncodeAll(rest);
      Canonical(r) && UnitsIn(r) == Units(init + [hi]) + Units([lo] + rest)
    ensures EncodeAll(init + [hi]) == EncodeAll(init) + Encode(hi)
    ensures EncodeAll([lo] + rest) == Encode(lo) + EncodeAll(rest)
    ensures |Encode(hi)| == |Encode(lo)| == 3 && |Encode(Astral(hi, lo))| == 4
  {
    var c := Astral(hi, lo);
    PairedJoined(init, hi, lo, rest);
    EncodedIsCanonical(init + [c] + rest);
    SeamBytes(init, c, rest);
    Snoc(init, hi);
    Cons(lo, rest);
    SurrogateUnits(hi, lo);
    UnitsOfCanonical(init + [c] + rest);
    PairBetween(Units(init), hi, lo, Units(rest));
  }

  lemma PairBetween(a: seq<Unit>, x: Unit, y: Unit, b: seq<Unit>)
    ensures a + [x, y] + b == (a + [x]) + ([y] + b)
  {
  }

  lemma UnitsOfCanonical(cs: seq<Char>)
    requires Chars(cs)
    ensures UnitsIn(EncodeAll(cs)) == Units(cs)
  {
    TextOfEncoded(cs);
  }

  lemma PairedJoined(init: seq<Char>, hi: Unit, lo: Unit, rest: seq<Char>)
    requires IsHigh(hi) && IsLow(lo)
    requires Chars(init + [hi]) && Paired(init + [hi]) && Chars([lo] + rest) && Paired([lo] + rest)
    ensures var es := init + [Astral(hi, lo)] + rest; Chars(es) && Paired(es)
  {
    hide Astral;
    var es, a, b := init + [Astral(hi, lo)] + rest, init + [hi], [lo] + rest;
    var n := |init|;
    forall i | 0 <= i < |es| - 1 ensures !(IsHigh(es[i]) && IsLow(es[i + 1])) {
      if i < n { assert es[i] == a[i] && (i + 1 < n ==> es[i + 1] == a[i + 1]); }
      if i > n { assert es[i] == b[i - n] && es[i + 1] == b[i + 1 - n]; }
    }
    forall i | 0 <= i < |es| ensures es[i] <= CODE_POINT_MAX {
      if i < n { assert es[i] == a[i]; }
      if i > n { assert es[i] == b[i - n]; }
    }
  }

  lemma SeamBytes(init: seq<Char>, c: Char, rest: seq<Char>)
    ensures EncodeAll(init + [c] + rest) == EncodeAll(init) + Encode(c) + EncodeAll(rest)
    ensures Units(init + [c] + rest) == Units(init) + UnitsOf(c) + Units(rest)
  {
    hide Encode, EncodeAll, Units, UnitsOf;
    EncodeAppend(init + [c], rest);
    UnitsAppend(init + [c], rest);
    Snoc(init, c);
  }

  lemma Snoc(init: seq<Char>, c: Char)
    ensures EncodeAll(init + [c]) == EncodeAll(init) + Encode(c)
    ensures Units(init + [c]) == Units(init) + UnitsOf(c)
  {
    EncodeAppend(init, [c]);
    UnitsAppend(init, [c]);
    OneChar(c);
  }

  lemma Cons(c: Char, rest: seq<Char>)
    ensures EncodeAll([c] + rest) == Encode(c) + EncodeAll(rest)
    ensures Units([c] + rest) == UnitsOf(c) + Units(rest)
  {
    EncodeAppend([c], rest);
    UnitsAppend([c], rest);
    OneChar(c);
  }

  lemma OneChar(c: Char)
    ensures EncodeAll([c]) == Encode(c) && Units([c]) == UnitsOf(c)
  {
  }

  lemma SurrogateUnits(hi: Unit, lo: Unit)
    requires IsHigh(hi) && IsLow(lo)
    ensures UnitsOf(hi) == [hi] && UnitsOf(lo) == [lo] && UnitsOf(Astral(hi, lo)) == [hi, lo]
    ensures |Encode(hi)| == |Encode(lo)| == 3 && |Encode(Astral(hi, lo))| == 4
  {
  }
}
