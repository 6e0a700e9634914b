/** Ordering strings by UTF-16 unit, mostly without looking at the units: code points and
    units sort alike but where a surrogate pair meets what lies above the surrogates. */
module Wtf8Order {
  import opened Wrappers
  import opened Wtf8

  datatype Ordering = Less | Equal | Greater

  function Compare(x: nat, y: nat): Ordering {
    if x < y then Less else if x == y then Equal else Greater
  }

  /** Lexicographic, a prefix before what it starts. */
  function CompareSeq(a: seq<nat>, b: seq<nat>): Ordering {
    if a == [] || b == [] then Compare(|a|, |b|)
    else if a[0] != b[0] then Compare(a[0], b[0])
    else CompareSeq(a[1..], b[1..])
  }

  /** The first position at which both have something, and not the same. */
  function FirstDiff(a: seq<nat>, b: seq<nat>): (i: Option<nat>)
    ensures i.Some? ==> i.value < |a| && i.value < |b| && a[i.value] != b[i.value] && a[..i.value] == b[..i.value]
  {
    if a == [] || b == [] then None
    else if a[0] != b[0] then Some(0)
    else
      var i := FirstDiff(a[1..], b[1..]);
      if i.None? then None
      else
        assert a[..i.value + 1] == [a[0]] + a[1..][..i.value] && b[..i.value + 1] == [b[0]] + b[1..][..i.value];
        Some(i.value + 1)
  }

  /** `cmp_utf16`. */
  function CompareUtf16(a: seq<Byte>, b: seq<Byte>): Ordering {
    Verdict(a, b, CompareSeq(UnitsIn(a), UnitsIn(b)))
  }

  /** By the first bytes that differ, unless one may start a surrogate: then by the units. */
  function Verdict(a: seq<Byte>, b: seq<Byte>, units: Ordering): Ordering {
    match FirstDiff(a, b)
    case Some(i) => if a[i] >= 0xED || b[i] >= 0xED then units else Compare(a[i], b[i])
    case None => Compare(|a|, |b|)
  }

  /** A common start changes neither the order nor what differs first. */
  lemma {:induction false} CommonStart(s: seq<nat>, a: seq<nat>, b: seq<nat>)
    ensures CompareSeq(s + a, s + b) == CompareSeq(a, b)
    ensures FirstDiff(s + a, s + b)
         == match FirstDiff(a, b) case Some(i) => Some(|s| + i) case None => None
  {
    if s == [] {
      assert s + a == a && s + b == b;
    } else {
      CommonStart(s[1..], a, b);
      assert (s + a)[1..] == s[1..] + a && (s + b)[1..] == s[1..] + b;
    }
  }

  lemma {:induction false} DiffIsAt(a: seq<nat>, b: seq<nat>, i: nat)
    requires i < |a| && i < |b| && a[..i] == b[..i] && a[i] != b[i]
    ensures FirstDiff(a, b) == Some(i)
  {
    if i > 0 {
      assert a[0] == a[..i][0] && b[0] == b[..i][0];
      assert a[1..][..i - 1] == a[..i][1..] && b[1..][..i - 1] == b[..i][1..];
      DiffIsAt(a[1..], b[1..], i - 1);
    }
  }

  // ---- Two code points

  /** The units `u` come before the units `v`, whatever follows either. */
  ghost predicate Before(u: seq<Unit>, v: seq<Unit>) {
    && u != [] && v != []
    && (u[0] < v[0] || (u[0] == v[0] && |u| > 1 && |v| > 1 && u[1] < v[1]))
  }

  ghost predicate DiffersAt(e: seq<Byte>, f: seq<Byte>, i: nat) {
    i < |e| && i < |f| && e[..i] == f[..i] && e[i] < f[i]
  }

  /** Units sort as code points do, but for a pair and what lies above the surrogates. */
  lemma UnitsSort(c: Char, d: Char)
    requires c < d <= CODE_POINT_MAX && (d < 0x1_0000 || c >= 0x1_0000)
    ensures Before(UnitsOf(c), UnitsOf(d))
  {
    if c >= 0x1_0000 {
      var x, y := c - 0x1_0000, d - 0x1_0000;
      assert x == x / 1024 * 1024 + x % 1024 && y == y / 1024 * 1024 + y % 1024;
    }
  }

  /** A longer form starts with a greater byte; below `0xED` start only code points below the
      surrogates. */
  lemma LeadsSort(c: Char, d: Char)
    requires c < d <= CODE_POINT_MAX
    ensures |Encode(c)| <= |Encode(d)| && (|Encode(c)| < |Encode(d)| ==> Encode(c)[0] < Encode(d)[0])
    ensures Encode(d)[0] < 0xED ==> d < 0xD000
  {
    EncodeWidth(c);
    EncodeWidth(d);
  }

  /** A form's bytes are the code point's six-bit digits. */
  lemma FormDigits(c: Char)
    requires c <= CODE_POINT_MAX
    ensures var e := Encode(c);
      && (|e| == 1 ==> e == [c])
      && (|e| == 2 ==> e == [0xC0 + c / 64, 0x80 + c % 64])
      && (|e| == 3 ==> e == [0xE0 + c / 4096, 0x80 + c / 64 % 64, 0x80 + c % 64] && c < 0x1_0000)
      && (|e| == 4 ==>
            e == [0xF0 + c / 262_144, 0x80 + c / 4096 % 64, 0x80 + c / 64 % 64, 0x80 + c % 64] && c >= 0x1_0000)
      && 1 <= |e| <= 4
  {
  }

  /** Forms of one length first differ where the digits do. */
  lemma SameWidth(c: Char, d: Char) returns (i: nat)
    requires c < d <= CODE_POINT_MAX && |Encode(c)| == |Encode(d)|
    ensures DiffersAt(Encode(c), Encode(d), i)
  {
    hide Encode;
    FormDigits(c);
    FormDigits(d);
    Digits(c);
    Digits(d);
    if |Encode(c)| == 1 {
      i := 0;
    } else if |Encode(c)| == 2 {
      i := if c / 64 < d / 64 then 0 else 1;
    } else if |Encode(c)| == 3 {
      i := if c / 4096 < d / 4096 then 0 else if c / 64 % 64 < d / 64 % 64 then 1 else 2;
    } else {
      i := if c / 262_144 < d / 262_144 then 0
           else if c / 4096 % 64 < d / 4096 % 64 then 1
           else if c / 64 % 64 < d / 64 % 64 then 2
           else 3;
    }
  }

  /** The forms of two code points differ somewhere, in the order of the code points; where
      the bytes there are below `0xED`, the units are in that order too. */
  lemma FormsDiffer(c: Char, d: Char) returns (i: nat)
    requires c < d <= CODE_POINT_MAX
    ensures DiffersAt(Encode(c), Encode(d), i)
    ensures Encode(d)[i] < 0xED ==> Before(UnitsOf(c), UnitsOf(d))
  {
    hide Encode, UnitsOf, Before;
    LeadsSort(c, d);
    FormDigits(c);
    FormDigits(d);
    i := 0;
    if |Encode(c)| == |Encode(d)| { i := SameWidth(c, d); }
    if Encode(d)[i] < 0xED && (d < 0x1_0000 || c >= 0x1_0000) { UnitsSort(c, d); }
  }

  // ---- Strings

  lemma BeforeSeq(u: seq<Unit>, v: seq<Unit>, x: seq<Unit>, y: seq<Unit>)
    requires Before(u, v)
    ensures CompareSeq(u + x, v + y) == Less && CompareSeq(v + y, u + x) == Greater
  {
    var a, b := u + x, v + y;
    if u[0] == v[0] { assert a[1..][0] == u[1] && b[1..][0] == v[1]; }
  }

  lemma FirstCharsDiffer(c: Char, d: Char, a: seq<Byte>, b: seq<Byte>, x: seq<Unit>, y: seq<Unit>)
    requires c < d <= CODE_POINT_MAX
    ensures Verdict(Encode(c) + a, Encode(d) + b, CompareSeq(UnitsOf(c) + x, UnitsOf(d) + y))
         == CompareSeq(UnitsOf(c) + x, UnitsOf(d) + y)
    ensures Verdict(Encode(d) + b, Encode(c) + a, CompareSeq(UnitsOf(d) + y, UnitsOf(c) + x))
         == CompareSeq(UnitsOf(d) + y, UnitsOf(c) + x)
  {
    hide Encode, UnitsOf, Before, CompareSeq, FirstDiff;
    var i := FormsDiffer(c, d);
    var e, f := Encode(c) + a, Encode(d) + b;
    assert e[..i] == Encode(c)[..i] && f[..i] == Encode(d)[..i];
    DiffIsAt(e, f, i);
    DiffIsAt(f, e, i);
    if Encode(d)[i] < 0xED { BeforeSeq(UnitsOf(c), UnitsOf(d), x, y); }
  }

  lemma {:induction false} VerdictIsRight(cs: seq<Char>, ds: seq<Char>)
    requires Chars(cs) && Chars(ds)
    ensures Verdict(EncodeAll(cs), EncodeAll(ds), CompareSeq(Units(cs), Units(ds))) == CompareSeq(Units(cs), Units(ds))
  {
    hide Encode, UnitsOf;
    if cs != [] && ds != [] {
      var (e, f, x, y) := (EncodeAll(cs[1..]), EncodeAll(ds[1..]), Units(cs[1..]), Units(ds[1..]));
      if cs[0] == ds[0] {
        VerdictIsRight(cs[1..], ds[1..]);
        CommonStart(Encode(cs[0]), e, f);
        CommonStart(UnitsOf(cs[0]), x, y);
      } else if cs[0] < ds[0] {
        FirstCharsDiffer(cs[0], ds[0], e, f, x, y);
      } else {
        FirstCharsDiffer(ds[0], cs[0], f, e, y, x);
      }
    }
  }

  lemma {:induction false} EqualIsSame(a: seq<nat>, b: seq<nat>)
    ensures CompareSeq(a, b) == Equal <==> a == b
  {
    if a != [] && b != [] && a[0] == b[0] {
      EqualIsSame(a[1..], b[1..]);
      assert a == [a[0]] + a[1..] && b == [b[0]] + b[1..];
    }
  }

  /** The order of strings is that of their UTF-16 units, and only a string equals itself. */
  lemma CompareUtf16IsByUnits(a: seq<Byte>, b: seq<Byte>)
    requires Canonical(a) && Canonical(b)
    ensures CompareUtf16(a, b) == CompareSeq(UnitsIn(a), UnitsIn(b))
    ensures CompareUtf16(a, b) == Equal <==> a == b
  {
    VerdictIsRight(Text(a), Text(b));
    EqualIsSame(UnitsIn(a), UnitsIn(b));
    SameUnitsSameBytes(a, b);
  }
}
