/** The order own keys are listed in: array indices ascending, then the rest as inserted
    (section 10.1.11.1 of ECMA-262). */
module OwnKeys {
  import opened Wrappers
  import opened Layouts

  const MAX_U32: nat := 0xFFFF_FFFF

  predicate IsDigit(b: bv8) { 0x30 <= b <= 0x39 }

  function Digit(d: nat): bv8
    requires d < 10
  {
    0x30 + d as bv8
  }

  /** `to_string` of a number. */
  function Decimal(n: nat): (s: Key)
    ensures |s| > 0 && forall i | 0 <= i < |s| :: IsDigit(s[i])
  {
    if n < 10 then [Digit(n)] else Decimal(n / 10) + [Digit(n % 10)]
  }

  function Number(s: Key): nat {
    if s == [] then 0 else 10 * Number(s[..|s| - 1]) + (s[|s| - 1] & 0x0f) as nat
  }

  /** `parse::<u32>`: digits, a plus sign allowed before them. */
  function ParseU32(s: Key): Option<nat> {
    var digits := if |s| > 0 && s[0] == 0x2b then s[1..] else s;
    if digits == [] || (exists i :: 0 <= i < |digits| && !IsDigit(digits[i])) || Number(digits) > MAX_U32 then None
    else Some(Number(digits))
  }

  /** `array_index`. */
  function ArrayIndex(k: Key): Option<nat> {
    var n := ParseU32(k);
    if n.Some? && n.value < MAX_U32 && Decimal(n.value) == k then n else None
  }

  lemma DigitValue(d: nat)
    requires d < 10
    ensures IsDigit(Digit(d)) && (Digit(d) & 0x0f) as nat == d && Digit(d) != 0x2b
  {
    assert d == 0 || d == 1 || d == 2 || d == 3 || d == 4 || d == 5 || d == 6 || d == 7 || d == 8 || d == 9;
  }

  lemma {:induction false} NumberOfDecimal(n: nat)
    ensures Number(Decimal(n)) == n && Decimal(n)[0] != 0x2b
  {
    hide Digit;
    if n < 10 {
      DigitValue(n);
      assert [Digit(n)][..0] == [];
    } else {
      NumberOfDecimal(n / 10);
      DigitValue(n % 10);
      assert Decimal(n)[..|Decimal(n)| - 1] == Decimal(n / 10);
    }
  }

  /** The array-index keys are the decimal forms of the numbers under 2^32 - 1, one each. */
  lemma ArrayIndexIsDecimal(k: Key, n: nat)
    ensures ArrayIndex(k) == Some(n) <==> n < MAX_U32 && k == Decimal(n)
  {
    hide Number, Decimal;
    NumberOfDecimal(n);
  }

  // ---- The order

  predicate IsIndex(k: Key) { ArrayIndex(k).Some? }

  function IndexOf(k: Key): nat
    requires IsIndex(k)
  {
    ArrayIndex(k).value
  }

  function Indices(keys: seq<Key>): (r: seq<Key>)
    ensures forall k :: k in r <==> k in keys && IsIndex(k)
  {
    if keys == [] then []
    else
      assert keys == keys[..|keys| - 1] + [keys[|keys| - 1]];
      Indices(keys[..|keys| - 1]) + if IsIndex(keys[|keys| - 1]) then [keys[|keys| - 1]] else []
  }

  function Others(keys: seq<Key>): (r: seq<Key>)
    ensures forall k :: k in r <==> k in keys && !IsIndex(k)
  {
    if keys == [] then []
    else
      assert keys == keys[..|keys| - 1] + [keys[|keys| - 1]];
      Others(keys[..|keys| - 1]) + if IsIndex(keys[|keys| - 1]) then [] else [keys[|keys| - 1]]
  }

  /** The other keys stay in the order they had. */
  lemma {:induction false} OthersInOrder(keys: seq<Key>, i: nat, j: nat)
    requires i < j < |Others(keys)|
    ensures exists a, b :: 0 <= a < b < |keys| && keys[a] == Others(keys)[i] && keys[b] == Others(keys)[j]
  {
    hide IsIndex;
    var n := |keys| - 1;
    var init := Others(keys[..n]);
    if j < |init| {
      OthersInOrder(keys[..n], i, j);
      var a, b :| 0 <= a < b < n && keys[..n][a] == init[i] && keys[..n][b] == init[j];
      assert keys[a] == Others(keys)[i] && keys[b] == Others(keys)[j];
    } else {
      assert init[i] in keys[..n];
      var a :| 0 <= a < n && keys[..n][a] == init[i];
      assert keys[a] == Others(keys)[i] && keys[n] == Others(keys)[j];
    }
  }

  function InsertByIndex(sorted: seq<Key>, k: Key): (r: seq<Key>)
    requires IsIndex(k) && forall j | j in sorted :: IsIndex(j)
    ensures forall j :: j in r <==> j in sorted || j == k
  {
    if sorted == [] then [k]
    else
      assert sorted == sorted[..|sorted| - 1] + [sorted[|sorted| - 1]];
      if IndexOf(sorted[|sorted| - 1]) <= IndexOf(k) then sorted + [k]
      else InsertByIndex(sorted[..|sorted| - 1], k) + [sorted[|sorted| - 1]]
  }

  function SortByIndex(keys: seq<Key>): (r: seq<Key>)
    requires forall k | k in keys :: IsIndex(k)
    ensures forall k :: k in r <==> k in keys
  {
    if keys == [] then []
    else
      assert keys == keys[..|keys| - 1] + [keys[|keys| - 1]];
      InsertByIndex(SortByIndex(keys[..|keys| - 1]), keys[|keys| - 1])
  }

  /** `ordered_keys`. */
  function OrderedKeys(base: seq<Key>): seq<Key> {
    SortByIndex(Indices(base)) + Others(base)
  }

  ghost predicate Ascending(keys: seq<Key>) {
    && (forall i | 0 <= i < |keys| :: IsIndex(keys[i]))
    && (forall i, j | 0 <= i < j < |keys| :: IndexOf(keys[i]) < IndexOf(keys[j]))
  }

  ghost predicate Distinct(keys: seq<Key>) {
    forall i, j | 0 <= i < j < |keys| :: keys[i] != keys[j]
  }

  /** What the standard asks of the list: the indices among the keys, ascending, then the other
      keys as they were. */
  ghost predicate StandardOrder(base: seq<Key>, out: seq<Key>) {
    exists n :: 0 <= n <= |out| && Ascending(out[..n]) && out[n..] == Others(base)
      && forall k :: k in out[..n] <==> k in base && IsIndex(k)
  }

  lemma SameIndexSameKey(a: Key, b: Key)
    requires IsIndex(a) && IsIndex(b) && IndexOf(a) == IndexOf(b)
    ensures a == b
  {
    ArrayIndexIsDecimal(a, IndexOf(a));
    ArrayIndexIsDecimal(b, IndexOf(b));
  }

  lemma {:induction false} InsertAscends(sorted: seq<Key>, k: Key)
    requires Ascending(sorted) && IsIndex(k) && k !in sorted
    ensures Ascending(InsertByIndex(sorted, k))
  {
    hide IsIndex, IndexOf;
    if sorted != [] {
      var n := |sorted| - 1;
      if IndexOf(sorted[n]) == IndexOf(k) { SameIndexSameKey(sorted[n], k); }
      if IndexOf(sorted[n]) > IndexOf(k) {
        InsertAscends(sorted[..n], k);
        var r := InsertByIndex(sorted[..n], k);
        forall i | 0 <= i < |r| ensures IndexOf(r[i]) < IndexOf(sorted[n]) {
          assert r[i] in r;
        }
      }
    }
  }

  lemma {:induction false} SortAscends(keys: seq<Key>)
    requires Distinct(keys) && forall k | k in keys :: IsIndex(k)
    ensures Ascending(SortByIndex(keys))
  {
    if keys != [] {
      var n := |keys| - 1;
      SortAscends(keys[..n]);
      InsertAscends(SortByIndex(keys[..n]), keys[n]);
    }
  }

  lemma {:induction false} IndicesDistinct(keys: seq<Key>)
    requires Distinct(keys)
    ensures Distinct(Indices(keys))
  {
    if keys != [] { IndicesDistinct(keys[..|keys| - 1]); }
  }

  /** Two ascending lists of the same keys are the same. */
  lemma {:induction false} AscendingUnique(a: seq<Key>, b: seq<Key>)
    requires Ascending(a) && Ascending(b) && forall k :: k in a <==> k in b
    ensures a == b
  {
    hide IsIndex, IndexOf;
    SameEmpty(a, b);
    if a != [] {
      LastIsGreatest(a, b);
      LastIsGreatest(b, a);
      var m, n := |a| - 1, |b| - 1;
      SameIndexSameKey(a[m], b[n]);
      forall k ensures k in a[..m] <==> k in b[..n] {
        ButLast(a, k);
        ButLast(b, k);
      }
      AscendingUnique(a[..m], b[..n]);
    }
  }

  lemma SameEmpty(a: seq<Key>, b: seq<Key>)
    requires forall k :: k in a <==> k in b
    ensures a == [] <==> b == []
  {
    if a != [] { assert a[0] in b; }
    if b != [] { assert b[0] in a; }
  }

  lemma ButLast(a: seq<Key>, k: Key)
    requires Ascending(a) && a != []
    ensures k in a[..|a| - 1] <==> k in a && k != a[|a| - 1]
  {
    assert a == a[..|a| - 1] + [a[|a| - 1]];
  }

  lemma LastIsGreatest(a: seq<Key>, b: seq<Key>)
    requires Ascending(a) && Ascending(b) && a != [] && b != [] && forall k | k in a :: k in b
    ensures IndexOf(a[|a| - 1]) <= IndexOf(b[|b| - 1])
  {
    assert a[|a| - 1] in a;
    var j :| 0 <= j < |b| && b[j] == a[|a| - 1];
  }

  /** Own keys are listed in the standard's order, and it is the only such list. */
  lemma OrderedKeysAreStandard(base: seq<Key>, out: seq<Key>)
    requires Distinct(base)
    ensures StandardOrder(base, out) <==> out == OrderedKeys(base)
  {
    hide IsIndex, IndexOf, Indices, Others, SortByIndex, Ascending;
    var ints := SortByIndex(Indices(base));
    IndicesDistinct(base);
    SortAscends(Indices(base));
    var r := OrderedKeys(base);
    assert r[..|ints|] == ints && r[|ints|..] == Others(base);
    if StandardOrder(base, out) {
      var n :| 0 <= n <= |out| && Ascending(out[..n]) && out[n..] == Others(base)
        && forall k :: k in out[..n] <==> k in base && IsIndex(k);
      AscendingUnique(out[..n], ints);
      assert out == out[..n] + out[n..];
    }
  }
}
