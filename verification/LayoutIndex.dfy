/** The hashed key table of a large layout: an open-addressed table that answers like the
    list of keys. */
module LayoutIndex {
  import opened Wrappers
  import opened Layouts

  const U32: nat := 0x1_0000_0000

  // ---- The key hash

  const MULTIPLIER: bv64 := 0x517c_c1b7_2722_0a95

  /** Up to eight bytes as a little-endian word, zeros past the end. */
  function Word(bytes: seq<bv8>): bv64
    requires |bytes| <= 8
  {
    if bytes == [] then 0 else (bytes[0] as bv64) | (Word(bytes[1..]) << 8)
  }

  function Mix(h: bv64, w: bv64): bv64 { (h.RotateLeft(5) ^ w) * MULTIPLIER }

  function MixAll(h: bv64, bytes: seq<bv8>): bv64
    decreases |bytes|
  {
    if bytes == [] then h
    else if |bytes| < 8 then Mix(h, Word(bytes))
    else MixAll(Mix(h, Word(bytes[..8])), bytes[8..])
  }

  /** `key_hash`: never 0. */
  function KeyHash(key: Key): (h: nat)
    ensures 0 < h < U32
  {
    var m := MixAll((|key| % 0x1_0000_0000_0000_0000) as bv64, key);
    var low := (m ^ (m >> 32)) & 0xffff_ffff;
    if low == 0 then 1 else low as nat
  }

  // ---- The table

  /** A word holds a key's hash and its slot plus one; `0` is an empty cell. */
  function Entry(h: nat, slot: nat): (e: nat)
    requires slot + 1 < U32
    ensures e != 0 && e / U32 == h && e % U32 == slot + 1
  {
    h * U32 + (slot + 1)
  }

  function PowerFrom(p: nat, n: nat): (r: nat)
    requires p > 0
    ensures r >= n
    decreases n - p
  {
    if p >= n then p else PowerFrom(2 * p, n)
  }

  function Capacity(n: nat): nat {
    var p := PowerFrom(1, 2 * n);
    if p > 16 then p else 16
  }

  datatype ShapeIndex = ShapeIndex(table: seq<nat>, keys: seq<Key>)

  /** The cell of the `d`-th probe for hash `h`. */
  function Probe(h: nat, d: nat, cap: nat): (i: nat)
    requires cap > 0
    ensures i < cap
  {
    (h + d) % cap
  }

  /** Slot `j` sits at some probe of its key's hash, with no empty cell before it. */
  ghost predicate PlacedAt(table: seq<nat>, key: Key, j: nat, d: nat)
    requires |table| > 0 && j + 1 < U32
  {
    && table[Probe(KeyHash(key), d, |table|)] == Entry(KeyHash(key), j)
    && (forall e: nat | e < d :: table[Probe(KeyHash(key), e, |table|)] != 0)
  }

  ghost predicate Placed(table: seq<nat>, key: Key, j: nat)
    requires |table| > 0 && j + 1 < U32
  {
    exists d: nat :: PlacedAt(table, key, j, d)
  }

  ghost predicate HoldsSome(cell: nat, keys: seq<Key>)
    requires |keys| < U32
  {
    exists j: nat :: j < |keys| && cell == Entry(KeyHash(keys[j]), j)
  }

  /** The table holds each slot of `keys`, and nothing else. */
  ghost predicate Holds(table: seq<nat>, keys: seq<Key>) {
    && |keys| < U32 && |table| > 0
    && (forall j: nat | j < |keys| :: Placed(table, keys[j], j))
    && (forall i | 0 <= i < |table| && table[i] != 0 :: HoldsSome(table[i], keys))
  }

  ghost predicate IndexOf(ix: ShapeIndex, keys: seq<Key>) {
    ix.keys == keys && Holds(ix.table, keys) && 0 in ix.table
  }

  /** Every cell is some probe. */
  lemma SomeProbe(h: nat, i: nat, cap: nat)
    requires i < cap
    ensures exists d: nat :: d < cap && Probe(h, d, cap) == i
  {
    var d := (i - h) % cap;
    ModOfSum(h, i, cap);
    assert Probe(h, d, cap) == i;
  }

  lemma ModOfSum(h: int, i: int, cap: int)
    requires 0 <= i < cap
    ensures (h + (i - h) % cap) % cap == i
  {
    var q := (i - h) / cap;
    assert h + (i - h) % cap == i - cap * q;
    ModUnique(i, -q, cap);
    assert i - cap * q == i + cap * -q;
  }

  lemma ModUnique(i: int, q: int, cap: int)
    requires 0 <= i < cap
    ensures (i + cap * q) % cap == i
  {
    var n := i + cap * q;
    var k := n / cap - q;
    assert cap * k == i - n % cap;
    SmallMultiple(cap, k);
  }

  lemma SmallMultiple(cap: int, k: int)
    requires cap > 0
    ensures k != 0 ==> cap * k >= cap || cap * k <= -cap
  {
    if k >= 1 { MultipleGrows(cap, k); }
    if k <= -1 { MultipleGrows(cap, -k); }
  }

  lemma MultipleGrows(cap: int, k: int)
    requires cap > 0 && k >= 1
    ensures cap * k >= cap
  {
  }

  /** Finding probes from the key's hash until the key or an empty cell turns up. */
  method Find(ix: ShapeIndex, key: Key) returns (slot: Option<nat>)
    requires IndexOf(ix, ix.keys)
    ensures slot.None? ==> key !in ix.keys
    ensures slot.Some? ==> slot.value < |ix.keys| && ix.keys[slot.value] == key
  {
    hide KeyHash, Probe, Entry;
    var h, cap := KeyHash(key), |ix.table|;
    var d := 0;
    ghost var empty: nat :| empty < cap && ix.table[empty] == 0;
    SomeProbe(h, empty, cap);
    ghost var end: nat :| end < cap && Probe(h, end, cap) == empty;
    while true
      invariant d <= end
      invariant forall e: nat | e < d :: ix.table[Probe(h, e, cap)] != 0
      invariant forall j: nat | j < |ix.keys| && ix.keys[j] == key ::
        !(exists e: nat :: e < d && PlacedAt(ix.table, key, j, e))
      decreases end - d
    {
      var e := ix.table[Probe(h, d, cap)];
      if e == 0 {
        AbsentKey(ix, key, d);
        return None;
      }
      assert HoldsSome(e, ix.keys);
      if e / U32 == h {
        var s := e % U32 - 1;
        EntrySlot(e, ix.keys);
        if ix.keys[s] == key { return Some(s); }
      }
      forall j: nat | j < |ix.keys| && ix.keys[j] == key ensures !PlacedAt(ix.table, key, j, d) {
        if PlacedAt(ix.table, key, j, d) { EntryOf(h, j); }
      }
      d := d + 1;
    }
  }

  lemma EntryOf(h: nat, j: nat)
    requires j + 1 < U32
    ensures Entry(h, j) / U32 == h && Entry(h, j) % U32 == j + 1
  {
  }

  lemma EntrySlot(e: nat, keys: seq<Key>)
    requires |keys| < U32 && HoldsSome(e, keys)
    ensures 1 <= e % U32 <= |keys|
  {
  }

  lemma AbsentKey(ix: ShapeIndex, key: Key, d: nat)
    requires IndexOf(ix, ix.keys) && ix.table[Probe(KeyHash(key), d, |ix.table|)] == 0
    requires forall j: nat | j < |ix.keys| && ix.keys[j] == key ::
      !(exists e: nat :: e < d && PlacedAt(ix.table, key, j, e))
    ensures key !in ix.keys
  {
    hide KeyHash, Probe, Entry;
    forall j: nat | j < |ix.keys| ensures ix.keys[j] != key {
      PlacedBefore(ix, j, d, KeyHash(key));
    }
  }

  lemma PlacedBefore(ix: ShapeIndex, j: nat, d: nat, h: nat)
    requires IndexOf(ix, ix.keys) && j < |ix.keys| && ix.table[Probe(h, d, |ix.table|)] == 0
    ensures h == KeyHash(ix.keys[j]) ==> exists e: nat :: e < d && PlacedAt(ix.table, ix.keys[j], j, e)
  {
    hide KeyHash, Probe, Entry;
    var e: nat :| PlacedAt(ix.table, ix.keys[j], j, e);
    NotEmpty(ix.table, ix.keys[j], j, e);
  }

  lemma NotEmpty(table: seq<nat>, key: Key, j: nat, d: nat)
    requires |table| > 0 && j + 1 < U32 && PlacedAt(table, key, j, d)
    ensures table[Probe(KeyHash(key), d, |table|)] != 0
  {
  }

  // ---- Building

  ghost predicate UsedCells(table: seq<nat>, used: set<nat>) {
    forall i: nat :: i in used <==> i < |table| && table[i] != 0
  }

  lemma EmptyCellLeft(table: seq<nat>, used: set<nat>)
    requires UsedCells(table, used) && |used| < |table|
    ensures exists i: nat :: i < |table| && table[i] == 0
  {
    var all := Range(|table|);
    if all <= used { SubsetSize(all, used); }
    var i :| i in all && i !in used;
  }

  function Range(n: nat): (all: set<nat>)
    ensures |all| == n && forall i: nat :: i in all <==> i < n
  {
    if n == 0 then {} else Range(n - 1) + {n - 1}
  }

  lemma {:induction false} SubsetSize(a: set<nat>, b: set<nat>)
    requires a <= b
    ensures |a| <= |b|
  {
    if a != {} {
      var x :| x in a;
      SubsetSize(a - {x}, b - {x});
    }
  }

  /** `ShapeIndex::build` on a layout's keys. */
  method Build(keys: seq<Key>) returns (ix: ShapeIndex)
    requires |keys| < U32
    ensures IndexOf(ix, keys)
  {
    hide Capacity, KeyHash, Entry, Probe, Holds;
    var table := new nat[Capacity(|keys|)](_ => 0);
    var slot := 0;
    ghost var used: set<nat> := {};
    CapacityLeavesRoom(|keys|);
    HoldsNothing(table[..]);
    while slot < |keys|
      invariant slot <= |keys| < table.Length
      invariant UsedCells(table[..], used) && |used| == slot
      invariant Holds(table[..], keys[..slot])
    {
      EmptyCellLeft(table[..], used);
      var d, i := FreeCell(table, KeyHash(keys[slot]));
      used := used + {i};
      PlaceKeeps(table[..], keys, slot, d);
      EntryIsNot0(KeyHash(keys[slot]), slot);
      ghost var before := table[..];
      table[i] := Entry(KeyHash(keys[slot]), slot);
      assert table[..] == before[i := Entry(KeyHash(keys[slot]), slot)];
      slot := slot + 1;
    }
    assert keys[..slot] == keys;
    EmptyCellLeft(table[..], used);
    ix := ShapeIndex(table[..], keys);
  }

  lemma HoldsNothing(table: seq<nat>)
    requires |table| > 0 && forall i | 0 <= i < |table| :: table[i] == 0
    ensures Holds(table, [])
  {
  }

  lemma CapacityLeavesRoom(n: nat)
    ensures Capacity(n) > n
  {
  }

  /** The first empty cell from the hash: how many probes away, and where. */
  method FreeCell(table: array<nat>, h: nat) returns (d: nat, i: nat)
    requires exists i: nat :: i < table.Length && table[..][i] == 0
    ensures table.Length > 0 && i == Probe(h, d, table.Length) && table[i] == 0
    ensures forall e: nat | e < d :: table[Probe(h, e, table.Length)] != 0
  {
    hide Probe;
    ghost var empty: nat :| empty < table.Length && table[..][empty] == 0;
    SomeProbe(h, empty, table.Length);
    ghost var end: nat :| end < table.Length && Probe(h, end, table.Length) == empty;
    d := 0;
    i := Probe(h, d, table.Length);
    while table[i] != 0
      invariant d <= end && i == Probe(h, d, table.Length)
      invariant forall e: nat | e < d :: table[Probe(h, e, table.Length)] != 0
      decreases end - d
    {
      d := d + 1;
      i := Probe(h, d, table.Length);
    }
  }

  /** Filling the cell a probe ended at keeps what the table held and adds the new slot. */
  lemma PlaceKeeps(table: seq<nat>, keys: seq<Key>, slot: nat, d: nat)
    requires slot < |keys| < U32 && Holds(table, keys[..slot])
    requires var h := KeyHash(keys[slot]);
      table[Probe(h, d, |table|)] == 0 && forall e: nat | e < d :: table[Probe(h, e, |table|)] != 0
    ensures var h := KeyHash(keys[slot]);
      Holds(table[Probe(h, d, |table|) := Entry(h, slot)], keys[..slot + 1])
  {
    hide KeyHash, Probe, Entry;
    var h := KeyHash(keys[slot]);
    var i := Probe(h, d, |table|);
    var table': seq<nat> := table[i := Entry(h, slot)];
    var before, after := keys[..slot], keys[..slot + 1];
    EntryIsNot0(h, slot);
    forall j: nat | j < |after| ensures Placed(table', after[j], j) {
      if j == slot {
        assert after[j] == keys[slot];
        assert PlacedAt(table', after[j], j, d);
      } else {
        assert after[j] == before[j];
        var e: nat :| PlacedAt(table, before[j], j, e);
        NotEmpty(table, before[j], j, e);
        assert PlacedAt(table', after[j], j, e);
      }
    }
    forall c | 0 <= c < |table'| && table'[c] != 0 ensures HoldsSome(table'[c], after) {
      if c == i {
        assert table'[c] == Entry(KeyHash(after[slot]), slot);
      } else {
        assert HoldsSome(table[c], before);
        var j: nat :| j < |before| && table[c] == Entry(KeyHash(before[j]), j);
        assert table'[c] == Entry(KeyHash(after[j]), j);
      }
    }
  }

  lemma EntryIsNot0(h: nat, slot: nat)
    requires slot + 1 < U32
    ensures Entry(h, slot) != 0
  {
  }
}
