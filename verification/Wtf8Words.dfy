/** Counting UTF-16 units eight bytes at a time, in the bits of a machine word. */
module Wtf8Words {
  import opened Wtf8
  import opened Powers

  /** A machine word's bits, lowest first. */
  type Word = seq<bool>

  const WIDTH: nat := 64

  predicate Bit(b: Byte, k: nat) { b / Pow2(k) % 2 == 1 }

  function FromLeBytes(b: seq<Byte>): (x: Word)
    requires |b| == 8
    ensures |x| == WIDTH && forall j | 0 <= j < WIDTH :: x[j] <==> Bit(b[j / 8], j % 8)
  {
    seq(WIDTH, j requires 0 <= j < WIDTH => Bit(b[j / 8], j % 8))
  }

  function And(x: Word, y: Word): (z: Word)
    requires |x| == |y|
    ensures |z| == |x| && forall j | 0 <= j < |x| :: z[j] <==> x[j] && y[j]
  {
    seq(|x|, j requires 0 <= j < |x| => x[j] && y[j])
  }

  function Not(x: Word): (z: Word)
    ensures |z| == |x| && forall j | 0 <= j < |x| :: z[j] <==> !x[j]
  {
    seq(|x|, j requires 0 <= j < |x| => !x[j])
  }

  function ShiftLeft(x: Word, k: nat): (z: Word)
    ensures |z| == |x| && forall j | 0 <= j < |x| :: z[j] <==> j >= k && x[j - k]
  {
    seq(|x|, j requires 0 <= j < |x| => j >= k && x[j - k])
  }

  function Zero(): (x: Word)
    ensures |x| == WIDTH && forall j | 0 <= j < WIDTH :: !x[j]
  {
    seq(WIDTH, _ => false)
  }

  /** `0x8080_8080_8080_8080`. */
  function High(): (x: Word)
    ensures |x| == WIDTH && forall j | 0 <= j < WIDTH :: x[j] <==> j % 8 == 7
  {
    seq(WIDTH, j => j % 8 == 7)
  }

  function CountOnes(x: seq<bool>): nat {
    if x == [] then 0 else CountOnes(x[..|x| - 1]) + if x[|x| - 1] then 1 else 0
  }

  // ---- Bits and bytes

  /** What a byte's high bits say of it. */
  lemma HighBits(b: Byte)
    ensures Bit(b, 7) <==> b >= 0x80
    ensures Bit(b, 7) && !Bit(b, 6) <==> b / 64 == 2
    ensures Bit(b, 7) && Bit(b, 6) && Bit(b, 5) && Bit(b, 4) <==> b >= 0xF0
  {
    assert Pow2(4) == 16 && Pow2(5) == 32 && Pow2(6) == 64 && Pow2(7) == 128;
  }

  /** In `x` the top bit of each byte, and no other, says what `flags` does of that byte. */
  ghost predicate Marks(x: seq<bool>, flags: seq<bool>) {
    |x| == 8 * |flags| && forall j | 0 <= j < |x| :: x[j] <==> j % 8 == 7 && flags[j / 8]
  }

  lemma {:induction false} NoOnes(x: seq<bool>, k: nat)
    requires k <= |x| && forall j | k <= j < |x| :: !x[j]
    ensures CountOnes(x) == CountOnes(x[..k])
  {
    if k == |x| {
      assert x[..k] == x;
    } else {
      NoOnes(x[..|x| - 1], k);
      assert x[..|x| - 1][..k] == x[..k];
    }
  }

  lemma {:induction false} MarksCount(x: seq<bool>, flags: seq<bool>)
    requires Marks(x, flags)
    ensures CountOnes(x) == CountOnes(flags)
  {
    if flags != [] {
      var n := |flags| - 1;
      MarksCount(x[..8 * n], flags[..n]);
      NoOnes(x[..|x| - 1], 8 * n);
      assert x[..|x| - 1][..8 * n] == x[..8 * n];
    }
  }

  function Continuations(b: seq<Byte>): (flags: seq<bool>)
    ensures |flags| == |b|
  {
    seq(|b|, i requires 0 <= i < |b| => b[i] / 64 == 2)
  }

  function FourByteLeads(b: seq<Byte>): (flags: seq<bool>)
    ensures |flags| == |b|
  {
    seq(|b|, i requires 0 <= i < |b| => b[i] >= 0xF0)
  }

  /** One for each byte, one fewer for a continuation, one more for the lead of four. */
  lemma {:induction false} LenByFlags(b: seq<Byte>)
    ensures Utf16Len(b) + CountOnes(Continuations(b)) == |b| + CountOnes(FourByteLeads(b))
  {
    if b != [] {
      var n := |b| - 1;
      LenByFlags(b[..n]);
      Utf16LenAppend(b[..n], [b[n]]);
      assert b == b[..n] + [b[n]];
      assert Continuations(b)[..n] == Continuations(b[..n]) && FourByteLeads(b)[..n] == FourByteLeads(b[..n]);
    }
  }

  /** `x & !(x << 1) & HI`. */
  function ContinuationBits(x: Word): (z: Word)
    requires |x| == WIDTH
    ensures |z| == WIDTH
  {
    And(And(x, Not(ShiftLeft(x, 1))), High())
  }

  /** `x & (x << 1) & (x << 2) & (x << 3) & HI`. */
  function FourByteBits(x: Word): (z: Word)
    requires |x| == WIDTH
    ensures |z| == WIDTH
  {
    And(And(And(And(x, ShiftLeft(x, 1)), ShiftLeft(x, 2)), ShiftLeft(x, 3)), High())
  }

  lemma BitsMark(b: seq<Byte>)
    requires |b| == 8
    ensures var x := FromLeBytes(b);
      && Marks(ContinuationBits(x), Continuations(b)) && Marks(FourByteBits(x), FourByteLeads(b))
      && (And(x, High()) == Zero() ==> ContinuationBits(x) == Zero() && FourByteBits(x) == Zero())
  {
    hide Bit, ContinuationBits, FourByteBits;
    var x := FromLeBytes(b);
    var cont, four, none := ContinuationBits(x), FourByteBits(x), And(x, High());
    forall j | 0 <= j < WIDTH
      ensures cont[j] <==> j % 8 == 7 && Continuations(b)[j / 8]
      ensures four[j] <==> j % 8 == 7 && FourByteLeads(b)[j / 8]
      ensures cont[j] || four[j] ==> none[j]
    {
      LowBit(x, j);
      if j % 8 == 7 {
        TopMarks(x, b, j / 8);
        assert j == 8 * (j / 8) + 7;
      }
    }
    if none == Zero() {
      assert cont == Zero() && four == Zero();
    }
  }

  /** Only top bits are kept, and only those the word has. */
  lemma LowBit(x: Word, j: nat)
    requires |x| == WIDTH && j < WIDTH
    ensures ContinuationBits(x)[j] || FourByteBits(x)[j] ==> j % 8 == 7 && And(x, High())[j]
  {
  }

  lemma TopMarks(x: Word, b: seq<Byte>, i: nat)
    requires |b| == 8 && x == FromLeBytes(b) && i < 8
    ensures ContinuationBits(x)[8 * i + 7] <==> Continuations(b)[i]
    ensures FourByteBits(x)[8 * i + 7] <==> FourByteLeads(b)[i]
  {
    hide Bit, FromLeBytes, ContinuationBits, FourByteBits;
    TopBits(x, b, i);
    HighBits(b[i]);
    Split8(i, 7);
    AtTop(x, 8 * i + 7);
  }

  /** What the masks and shifts leave in the top bit of a byte. */
  lemma AtTop(x: Word, k: nat)
    requires |x| == WIDTH && 4 <= k < WIDTH && k % 8 == 7
    ensures ContinuationBits(x)[k] <==> x[k] && !x[k - 1]
    ensures FourByteBits(x)[k] <==> x[k] && x[k - 1] && x[k - 2] && x[k - 3]
  {
    hide And, Not, ShiftLeft, High;
  }

  lemma TopBits(x: Word, b: seq<Byte>, i: nat)
    requires |b| == 8 && x == FromLeBytes(b) && i < 8
    ensures x[8 * i + 7] == Bit(b[i], 7) && x[8 * i + 6] == Bit(b[i], 6)
    ensures x[8 * i + 5] == Bit(b[i], 5) && x[8 * i + 4] == Bit(b[i], 4)
  {
    hide Bit;
    Split8(i, 7);
    Split8(i, 6);
    Split8(i, 5);
    Split8(i, 4);
  }

  lemma Split8(i: nat, k: nat)
    requires k < 8
    ensures (8 * i + k) / 8 == i && (8 * i + k) % 8 == k
  {
  }

  lemma NoMarks()
    ensures CountOnes(Zero()) == 0
  {
    NoOnes(Zero(), 0);
  }

  /** A word's two counts give the units of its eight bytes. */
  lemma WordLen(b: seq<Byte>)
    requires |b| == 8
    ensures var x := FromLeBytes(b);
      && Utf16Len(b) == 8 - CountOnes(ContinuationBits(x)) + CountOnes(FourByteBits(x))
      && (And(x, High()) == Zero() ==> Utf16Len(b) == 8)
  {
    hide CountOnes, Utf16Len, ContinuationBits, FourByteBits, Continuations, FourByteLeads;
    var x := FromLeBytes(b);
    BitsMark(b);
    MarksCount(ContinuationBits(x), Continuations(b));
    MarksCount(FourByteBits(x), FourByteLeads(b));
    LenByFlags(b);
    NoMarks();
  }

  /** `utf16_len`: whole words first, then what is left byte by byte. */
  method Utf16LenByWords(b: seq<Byte>) returns (n: nat)
    ensures n == Utf16Len(b)
    ensures Canonical(b) ==> n == |UnitsIn(b)|
  {
    hide Utf16Len, CountOnes, ContinuationBits, FourByteBits, Canonical;
    n := 0;
    var i := 0;
    LenOfPrefix(b, 0);
    while i + 8 <= |b|
      invariant 0 <= i <= |b| && n == Utf16Len(b[..i])
    {
      var x := FromLeBytes(b[i..i + 8]);
      WordLen(b[i..i + 8]);
      LenOfSlice(b, i, i + 8);
      i := i + 8;
      if And(x, High()) == Zero() {
        n := n + 8;
        continue;
      }
      n := n + 8 - CountOnes(ContinuationBits(x)) + CountOnes(FourByteBits(x));
    }
    while i < |b|
      invariant 0 <= i <= |b| && n == Utf16Len(b[..i])
    {
      LenOfSlice(b, i, i + 1);
      LenOfOne(b[i]);
      assert b[i..i + 1] == [b[i]];
      n := n + (if b[i] / 64 != 2 then 1 else 0) + (if b[i] >= 0xF0 then 1 else 0);
      i := i + 1;
    }
    assert b[..i] == b;
    if Canonical(b) { Utf16LenCounts(b); }
  }

  lemma LenOfPrefix(b: seq<Byte>, i: nat)
    requires i == 0
    ensures Utf16Len(b[..i]) == 0
  {
  }

  lemma LenOfOne(x: Byte)
    ensures Utf16Len([x]) == (if x / 64 != 2 then 1 else 0) + (if x >= 0xF0 then 1 else 0)
  {
    assert [x][1..] == [];
  }

  lemma LenOfSlice(b: seq<Byte>, i: nat, j: nat)
    requires i <= j <= |b|
    ensures Utf16Len(b[..j]) == Utf16Len(b[..i]) + Utf16Len(b[i..j])
  {
    Utf16LenAppend(b[..i], b[i..j]);
    assert b[..j] == b[..i] + b[i..j];
  }
}
