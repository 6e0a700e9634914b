/** Positions in a stored string, and the byte range of a range of UTF-16 units. */
module Wtf8Ranges {
  import opened Wrappers
  import opened Wtf8

  /** Where the `k`-th code point starts, in bytes and in units. */
  function ByteAt(cs: seq<Char>, k: nat): nat
    requires k <= |cs|
  {
    |EncodeAll(cs[..k])|
  }

  function UnitAt(cs: seq<Char>, k: nat): nat
    requires k <= |cs|
  {
    |Units(cs[..k])|
  }

  lemma SplitAt(cs: seq<Char>, k: nat)
    requires k <= |cs|
    ensures EncodeAll(cs) == EncodeAll(cs[..k]) + EncodeAll(cs[k..])
    ensures Units(cs) == Units(cs[..k]) + Units(cs[k..])
    ensures EncodeAll(cs)[ByteAt(cs, k)..] == EncodeAll(cs[k..])
  {
    assert cs == cs[..k] + cs[k..];
    EncodeAppend(cs[..k], cs[k..]);
    UnitsAppend(cs[..k], cs[k..]);
  }

  lemma StepAt(cs: seq<Char>, k: nat)
    requires k < |cs|
    ensures ByteAt(cs, k + 1) == ByteAt(cs, k) + |Encode(cs[k])|
    ensures UnitAt(cs, k + 1) == UnitAt(cs, k) + |UnitsOf(cs[k])|
    ensures UnitAt(cs, k + 1) <= |Units(cs)| && Units(cs)[UnitAt(cs, k)..UnitAt(cs, k + 1)] == UnitsOf(cs[k])
  {
    hide Encode, UnitsOf;
    assert cs[..k + 1] == cs[..k] + [cs[k]];
    Snoc(cs[..k], cs[k]);
    SplitAt(cs, k + 1);
  }

  /** The code points `a` to `b` are the bytes and the units between their places. */
  lemma Between(cs: seq<Char>, a: nat, b: nat)
    requires a <= b <= |cs|
    ensures ByteAt(cs, a) <= ByteAt(cs, b) <= |EncodeAll(cs)| && UnitAt(cs, a) <= UnitAt(cs, b) <= |Units(cs)|
    ensures EncodeAll(cs)[ByteAt(cs, a)..ByteAt(cs, b)] == EncodeAll(cs[a..b])
    ensures Units(cs)[UnitAt(cs, a)..UnitAt(cs, b)] == Units(cs[a..b])
  {
    SplitAt(cs, b);
    SplitAt(cs[..b], a);
    assert cs[..b][..a] == cs[..a] && cs[..b][a..] == cs[a..b];
  }

  lemma EndsAt(cs: seq<Char>)
    ensures ByteAt(cs, 0) == 0 && UnitAt(cs, 0) == 0
    ensures ByteAt(cs, |cs|) == |EncodeAll(cs)| && UnitAt(cs, |cs|) == |Units(cs)|
  {
    assert cs[..|cs|] == cs;
  }

  /** The code point at a boundary decodes from its bytes. */
  lemma DecodeHere(cs: seq<Char>, k: nat)
    requires Chars(cs) && k < |cs|
    ensures var b := EncodeAll(cs); var i := ByteAt(cs, k);
      i < |b| && Decode(b[i..]) == (cs[k], |Encode(cs[k])|)
  {
    hide Encode, Decode;
    SplitAt(cs, k);
    assert EncodeAll(cs[k..]) == Encode(cs[k]) + EncodeAll(cs[k..][1..]);
    DecodeEncode(cs[k], EncodeAll(cs[k..][1..]));
  }

  /** Only at the end is there nothing to decode. */
  lemma EndsOnly(cs: seq<Char>, k: nat)
    requires k <= |cs|
    ensures ByteAt(cs, k) < |EncodeAll(cs)| <==> k < |cs|
    ensures UnitAt(cs, k) < |Units(cs)| <==> k < |cs|
  {
    hide Encode;
    SplitAt(cs, k);
    if k < |cs| {
      assert EncodeAll(cs[k..]) == Encode(cs[k]) + EncodeAll(cs[k..][1..]);
      assert Units(cs[k..]) == UnitsOf(cs[k]) + Units(cs[k..][1..]);
    }
  }

  /** Some code point starts at byte `i`, unit `u`. */
  ghost predicate BoundaryAt(cs: seq<Char>, k: nat, i: nat, u: nat) {
    k <= |cs| && i == ByteAt(cs, k) && u == UnitAt(cs, k)
  }

  ghost predicate Boundary(b: seq<Byte>, i: nat, u: nat) {
    exists k: nat :: BoundaryAt(Text(b), k, i, u)
  }

  lemma StartIsBoundary(b: seq<Byte>)
    ensures Boundary(b, 0, 0)
  {
    EndsAt(Text(b));
    assert BoundaryAt(Text(b), 0, 0, 0);
  }

  datatype UnitRange = UnitRange(start: nat, end: nat, lead: Option<Unit>, trail: Option<Unit>)

  function Opt(u: Option<Unit>): seq<Unit> { if u.Some? then [u.value] else [] }

  /** `r` is the range of units `s` to `e`: whole code points, with half of a split one before
      and after. */
  ghost predicate RangeOf(b: seq<Byte>, r: UnitRange, s: nat, e: nat) {
    && s <= e <= |UnitsIn(b)| && r.start <= r.end <= |b|
    && Canonical(b[r.start..r.end])
    && UnitsIn(b)[s..e] == Opt(r.lead) + UnitsIn(b[r.start..r.end]) + Opt(r.trail)
    && (r.lead.Some? ==> IsLow(r.lead.value)) && (r.trail.Some? ==> IsHigh(r.trail.value))
    && (r.lead.Some? ==> r.start >= 3) && (r.trail.Some? ==> r.end + 3 <= |b|)
    && Boundary(b, r.start, s + |Opt(r.lead)|)
  }

  lemma UnitsFromSlice(cs: seq<Char>, k1: nat, k2: nat, s: nat, e: nat, lead: Option<Unit>, trail: Option<Unit>)
    requires Chars(cs) && Paired(cs) && k1 <= k2 <= |cs| && s <= e <= |Units(cs)|
    requires UnitAt(cs, k1) == s + |Opt(lead)| && e == UnitAt(cs, k2) + |Opt(trail)|
    requires lead.Some? ==> s < |Units(cs)| && IsLow(lead.value) && Units(cs)[s] == lead.value
    requires trail.Some? ==> 0 < e && IsHigh(trail.value) && Units(cs)[e - 1] == trail.value
    requires (lead.Some? ==> ByteAt(cs, k1) >= 3) && (trail.Some? ==> ByteAt(cs, k2) + 3 <= |EncodeAll(cs)|)
    ensures RangeOf(EncodeAll(cs), UnitRange(ByteAt(cs, k1), ByteAt(cs, k2), lead, trail), s, e)
  {
    hide EncodeAll, Units, Text;
    TextOfEncoded(cs);
    Between(cs, k1, k2);
    assert BoundaryAt(cs, k1, ByteAt(cs, k1), UnitAt(cs, k1));
    EncodedIsCanonical(cs[k1..k2]);
    var us := Units(cs);
    var a, z := UnitAt(cs, k1), UnitAt(cs, k2);
    assert us[s..a] == Opt(lead) && us[z..e] == Opt(trail);
    ThreeParts(us, s, a, z, e);
  }

  lemma ThreeParts<T>(us: seq<T>, s: nat, a: nat, z: nat, e: nat)
    requires s <= a <= z <= e <= |us|
    ensures us[s..e] == us[s..a] + us[a..z] + us[z..e]
  {
  }

  /** The halves of an astral code point. */
  lemma Halves(c: Char)
    requires 0x1_0000 <= c <= CODE_POINT_MAX
    ensures var us := UnitsOf(c);
      |us| == 2 && us[0] == 0xD800 + (c - 0x1_0000) / 1024 && us[1] == 0xDC00 + (c - 0x1_0000) % 1024
      && IsHigh(us[0]) && IsLow(us[1]) && |Encode(c)| == 4
  {
  }

  /** `utf16_range`: one pass from a boundary known beforehand, if it is not past the start. */
  method Utf16Range(b: seq<Byte>, hint: (nat, nat), s: nat, e: nat, total: nat) returns (r: UnitRange)
    requires Canonical(b) && s < e <= total == |UnitsIn(b)| && Boundary(b, hint.0, hint.1)
    ensures RangeOf(b, r, s, e)
  {
    hide Encode, EncodeAll, Text, Decode, Units, UnitsOf, ByteAt, UnitAt;
    ghost var cs := Text(b);
    EndsAt(cs);
    var i: nat, u: nat := 0, 0;
    ghost var k: nat := 0;
    if hint.1 <= s && hint.0 <= |b| {
      i, u := hint.0, hint.1;
      k :| BoundaryAt(cs, k, i, u);
    }
    var lead: Option<Unit> := None;
    while u < s && i < |b|
      invariant BoundaryAt(cs, k, i, u) && u <= s + 1
      invariant lead.Some? <==> u == s + 1
      invariant lead.Some? ==> i >= 3
      invariant lead.Some? ==> IsLow(lead.value) && s < |Units(cs)| && Units(cs)[s] == lead.value
      decreases |cs| - k
    {
      EndsOnly(cs, k);
      DecodeHere(cs, k);
      StepAt(cs, k);
      CharOf(cs, k);
      var (cp, n) := Decode(b[i..]);
      i := i + n;
      if cp >= 0x1_0000 {
        Halves(cp);
        if u + 1 == s { lead := Some(0xDC00 + (cp - 0x1_0000) % 1024); }
        u := u + 2;
      } else {
        BmpUnits(cp);
        u := u + 1;
      }
      k := k + 1;
    }
    EndsOnly(cs, k);
    var start := i;
    ghost var k1 := k;
    if e >= total {
      UnitsFromSlice(cs, k1, |cs|, s, e, lead, None);
      return UnitRange(start, |b|, lead, None);
    }
    var trail: Option<Unit> := None;
    while u < e && i < |b|
      invariant BoundaryAt(cs, k, i, u) && u <= e && k1 <= k && trail == None
      decreases |cs| - k
    {
      EndsOnly(cs, k);
      DecodeHere(cs, k);
      StepAt(cs, k);
      CharOf(cs, k);
      var (cp, n) := Decode(b[i..]);
      if cp >= 0x1_0000 {
        Halves(cp);
        if u + 1 == e {
          trail := Some(0xD800 + (cp - 0x1_0000) / 1024);
          Between(cs, k + 1, k + 1);
          break;
        }
        u := u + 2;
      } else {
        BmpUnits(cp);
        u := u + 1;
      }
      i := i + n;
      k := k + 1;
    }
    EndsOnly(cs, k);
    UnitsFromSlice(cs, k1, k, s, e, lead, trail);
    r := UnitRange(start, i, lead, trail);
  }

  lemma CharOf(cs: seq<Char>, k: nat)
    requires Chars(cs) && k < |cs|
    ensures cs[k] <= CODE_POINT_MAX
  {
  }

  lemma BmpUnits(c: Char)
    requires c < 0x1_0000
    ensures UnitsOf(c) == [c]
  {
  }
}
