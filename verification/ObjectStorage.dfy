/** What an object's storage stands for: one insertion-ordered list of properties, whether
    held in slots (inline, near and far) or in a dictionary with tombstones. */
module ObjectStorage {
  import opened Wrappers
  import opened Layouts

  const INLINE_SLOTS: nat := 4
  const SPILL_NEAR: nat := 8

  const UNDEFINED: Val := Other(0)

  // ---- Insertion-ordered properties

  type Props = seq<(Key, Val)>

  function Position(p: Props, k: Key): (i: Option<nat>)
    ensures i.Some? ==> i.value < |p| && p[i.value].0 == k
    ensures i.None? ==> forall j | 0 <= j < |p| :: p[j].0 != k
  {
    if p == [] then None
    else if p[|p| - 1].0 == k then Some(|p| - 1)
    else Position(p[..|p| - 1], k)
  }

  function ValueIn(p: Props, k: Key): Option<Val> {
    var i := Position(p, k);
    if i.Some? then Some(p[i.value].1) else None
  }

  /** A new key goes last; a known one keeps its place. */
  function Put(p: Props, k: Key, v: Val): Props {
    var i := Position(p, k);
    if i.Some? then p[i.value := (k, v)] else p + [(k, v)]
  }

  function Without(p: Props, k: Key): Props {
    var i := Position(p, k);
    if i.Some? then p[..i.value] + p[i.value + 1..] else p
  }

  ghost predicate DistinctKeys(p: Props) {
    forall i, j | 0 <= i < j < |p| :: p[i].0 != p[j].0
  }

  /** Reading after a write, as of a map. */
  lemma PutIsMapUpdate(p: Props, k: Key, v: Val, other: Key)
    requires DistinctKeys(p)
    ensures DistinctKeys(Put(p, k, v))
    ensures ValueIn(Put(p, k, v), other) == if other == k then Some(v) else ValueIn(p, other)
    ensures forall i | 0 <= i < |p| :: Put(p, k, v)[i].0 == p[i].0
  {
    hide ValueIn;
    var q := Put(p, k, v);
    ValueAt(p, other);
    ValueAt(q, other);
    if other == k {
      var i := Position(p, k);
      assert q[if i.Some? then i.value else |p|] == (k, v);
    } else {
      var i := Position(p, other);
      if i.Some? { assert q[i.value] == p[i.value]; }
    }
  }

  /** What a list with distinct keys says of `k`. */
  lemma ValueAt(p: Props, k: Key)
    requires DistinctKeys(p)
    ensures forall v :: ValueIn(p, k) == Some(v) <==> (k, v) in p
  {
  }

  /** Reading after a removal, as of a map; the rest keep their order. */
  lemma WithoutIsMapRemoval(p: Props, k: Key, other: Key)
    requires DistinctKeys(p)
    ensures DistinctKeys(Without(p, k))
    ensures ValueIn(Without(p, k), other) == if other == k then None else ValueIn(p, other)
  {
    hide ValueIn;
    var q := Without(p, k);
    ValueAt(p, other);
    ValueAt(q, other);
    var i := Position(p, k);
    if i.Some? {
      forall e | e in p && e.0 != k ensures e in q {
        var j :| 0 <= j < |p| && p[j] == e;
        assert q[if j < i.value then j else j - 1] == e;
      }
      assert forall e | e in q :: e in p && e.0 != k;
    }
  }

  /** What is left keeps its order. */
  lemma WithoutKeepsOrder(p: Props, k: Key, i: nat, j: nat)
    requires i < j < |Without(p, k)|
    ensures var q := Without(p, k);
      exists a, b :: 0 <= a < b < |p| && p[a] == q[i] && p[b] == q[j]
  {
    hide Position;
    var at := Position(p, k);
    if at.Some? {
      var r := at.value;
      CutElement(p, r, i);
      CutElement(p, r, j);
      assert p[if i < r then i else i + 1] == Without(p, k)[i];
      assert p[if j < r then j else j + 1] == Without(p, k)[j];
    } else {
      assert p[i] == Without(p, k)[i] && p[j] == Without(p, k)[j];
    }
  }

  lemma CutElement<T>(s: seq<T>, r: nat, i: nat)
    requires r < |s| && i < |s| - 1
    ensures (s[..r] + s[r + 1..])[i] == s[if i < r then i else i + 1]
  {
  }

  /** Names beside values. */
  function Zip(keys: seq<Key>, vals: seq<Val>): (p: Props)
    requires |keys| == |vals|
    ensures |p| == |keys| && forall i | 0 <= i < |p| :: p[i] == (keys[i], vals[i])
  {
    if keys == [] then [] else Zip(keys[..|keys| - 1], vals[..|keys| - 1]) + [(keys[|keys| - 1], vals[|keys| - 1])]
  }

  /** The names of the properties, in their order. */
  function NamesOf(p: Props): (keys: seq<Key>)
    ensures |keys| == |p| && forall i | 0 <= i < |p| :: keys[i] == p[i].0
  {
    seq(|p|, i requires 0 <= i < |p| => p[i].0)
  }

  ghost predicate Distincts(keys: seq<Key>) {
    forall i, j | 0 <= i < j < |keys| :: keys[i] != keys[j]
  }

  lemma ZipWrite(keys: seq<Key>, vals: seq<Val>, i: nat, v: Val)
    requires |keys| == |vals| && i < |keys| && Distincts(keys)
    ensures Zip(keys, vals[i := v]) == Put(Zip(keys, vals), keys[i], v)
    ensures ValueIn(Zip(keys, vals), keys[i]) == Some(vals[i])
  {
    hide Zip;
    assert Zip(keys, vals)[i].0 == keys[i];
  }

  lemma ZipPush(keys: seq<Key>, vals: seq<Val>, k: Key, v: Val)
    requires |keys| == |vals| && k !in keys
    ensures Zip(keys + [k], vals + [v]) == Put(Zip(keys, vals), k, v)
    ensures ValueIn(Zip(keys, vals), k) == None
  {
    hide Zip;
  }

  /** `s` without its `i`-th. */
  function Cut<T>(s: seq<T>, i: nat): seq<T>
    requires i < |s|
  {
    s[..i] + s[i + 1..]
  }

  lemma ZipCut(keys: seq<Key>, vals: seq<Val>, i: nat)
    requires |keys| == |vals| && i < |keys| && Distincts(keys)
    ensures Zip(Cut(keys, i), Cut(vals, i)) == Without(Zip(keys, vals), keys[i])
    ensures Distincts(Cut(keys, i)) && keys[i] !in Cut(keys, i)
  {
    hide Zip;
    assert Zip(keys, vals)[i].0 == keys[i];
    assert Zip(Cut(keys, i), Cut(vals, i)) == Zip(keys, vals)[..i] + Zip(keys, vals)[i + 1..];
  }

  lemma ZipAbsent(keys: seq<Key>, vals: seq<Val>, k: Key)
    requires |keys| == |vals| && k !in keys
    ensures Position(Zip(keys, vals), k).None?
  {
  }

  // ---- Slots

  /** `len` counts all slots and `n` the spilled ones; entries past them are unused. */
  datatype SlotStore = SlotStore(len: nat, inline: seq<Val>, near: seq<Val>, far: seq<Val>, n: nat) {
    predicate Ok() {
      && |inline| == INLINE_SLOTS && |near| == SPILL_NEAR
      && n == (if len <= INLINE_SLOTS then 0 else len - INLINE_SLOTS)
      && |far| == (if n <= SPILL_NEAR then 0 else n - SPILL_NEAR)
    }

    /** `slots_iter`. */
    function Values(): (vals: seq<Val>)
      requires Ok()
      ensures |vals| == len
    {
      inline[..if len < INLINE_SLOTS then len else INLINE_SLOTS]
        + near[..if n < SPILL_NEAR then n else SPILL_NEAR] + far
    }

    /** `slot_get`. */
    function Get(i: nat): (v: Option<Val>)
      requires Ok()
      ensures v == if i < len then Some(Values()[i]) else None
    {
      if i >= len then None
      else if i < INLINE_SLOTS then Some(inline[i])
      else if i - INLINE_SLOTS < SPILL_NEAR then Some(near[i - INLINE_SLOTS])
      else Some(far[i - INLINE_SLOTS - SPILL_NEAR])
    }

    /** Through `slot_get_mut`. */
    function Write(i: nat, v: Val): (s: SlotStore)
      requires Ok() && i < len
      ensures s.Ok() && s.Values() == Values()[i := v]
    {
      if i < INLINE_SLOTS then this.(inline := inline[i := v])
      else if i - INLINE_SLOTS < SPILL_NEAR then this.(near := near[i - INLINE_SLOTS := v])
      else this.(far := far[i - INLINE_SLOTS - SPILL_NEAR := v])
    }

    /** `slot_push`. */
    function Push(v: Val): (s: SlotStore)
      requires Ok()
      ensures s.Ok() && s.Values() == Values() + [v]
    {
      if len < INLINE_SLOTS then this.(inline := inline[len := v], len := len + 1)
      else if n < SPILL_NEAR then this.(near := near[n := v], n := n + 1, len := len + 1)
      else this.(far := far + [v], n := n + 1, len := len + 1)
    }

    /** What `set_slots` starts with. */
    function Cleared(): (s: SlotStore)
      requires Ok()
      ensures s.Ok() && s.Values() == []
    {
      this.(len := 0, n := 0, far := [])
    }
  }

  const NoSlots: SlotStore :=
    SlotStore(0, [UNDEFINED, UNDEFINED, UNDEFINED, UNDEFINED],
      [UNDEFINED, UNDEFINED, UNDEFINED, UNDEFINED, UNDEFINED, UNDEFINED, UNDEFINED, UNDEFINED], [], 0)

  // ---- The dictionary

  datatype DictSlot = DictSlot(value: Val, pos: nat)

  /** The keys of `order`, tombstones skipped. */
  function Live(order: seq<Option<Key>>): (keys: seq<Key>)
    ensures |keys| <= |order|
  {
    if order == [] then [] else Live(order[..|order| - 1]) + AsList(order[|order| - 1])
  }

  function AsList(k: Option<Key>): seq<Key> { if k.Some? then [k.value] else [] }

  lemma LiveSnoc(order: seq<Option<Key>>, last: Option<Key>)
    ensures Live(order + [last]) == Live(order) + AsList(last)
  {
    assert (order + [last])[..|order|] == order;
  }

  lemma {:induction false} LiveMembers(order: seq<Option<Key>>)
    ensures forall k :: k in Live(order) <==> Some(k) in order
  {
    if order != [] {
      var n := |order| - 1;
      LiveMembers(order[..n]);
      LiveSnoc(order[..n], order[n]);
      assert order == order[..n] + [order[n]];
    }
  }

  function ValuesOf(keys: seq<Key>, entries: map<Key, DictSlot>): (vals: seq<Val>)
    requires forall k | k in keys :: k in entries
    ensures |vals| == |keys| && forall i | 0 <= i < |keys| :: vals[i] == entries[keys[i]].value
  {
    if keys == [] then [] else ValuesOf(keys[..|keys| - 1], entries) + [entries[keys[|keys| - 1]].value]
  }

  /** The keys in insertion order, a deleted one leaving a tombstone; each entry knows where
      its key is. */
  datatype Dict = Dict(order: seq<Option<Key>>, entries: map<Key, DictSlot>) {
    ghost predicate KeyAt(k: Key)
      requires k in entries
    {
      entries[k].pos < |order| && order[entries[k].pos] == Some(k)
    }

    ghost predicate PlaceAt(i: nat)
      requires i < |order|
    {
      order[i].Some? ==> order[i].value in entries && entries[order[i].value].pos == i
    }

    ghost predicate Ok() {
      && (forall k {:trigger KeyAt(k)} | k in entries :: KeyAt(k))
      && (forall i: nat {:trigger PlaceAt(i)} | i < |order| :: PlaceAt(i))
    }

    ghost function Props(): Props
      requires Ok()
    {
      DictKeysDistinct(this);
      Zip(Live(order), ValuesOf(Live(order), entries))
    }

    /** `write_existing`. */
    function Write(k: Key, v: Val): Dict
      requires k in entries
    {
      this.(entries := entries[k := entries[k].(value := v)])
    }

    /** `add_new`. */
    function Insert(k: Key, v: Val): Dict {
      Dict(order + [Some(k)], entries[k := DictSlot(v, |order|)])
    }

    /** `delete`, before compaction. */
    function Remove(k: Key): Dict
      requires k in entries && entries[k].pos < |order|
    {
      Dict(order[entries[k].pos := None], entries - {k})
    }

    /** Enumeration never meets more tombstones than this leaves room for. */
    predicate Bounded() { |order| <= 2 * |entries| + 16 }
  }

  lemma {:induction false} LiveDistinct(order: seq<Option<Key>>)
    requires forall i, j | 0 <= i < j < |order| && order[i].Some? :: order[i] != order[j]
    ensures Distincts(Live(order))
  {
    if order != [] {
      LiveDistinct(order[..|order| - 1]);
      LiveMembers(order[..|order| - 1]);
    }
  }

  lemma DictKeysDistinct(d: Dict)
    requires d.Ok()
    ensures Distincts(Live(d.order)) && (forall k :: k in Live(d.order) <==> k in d.entries)
  {
    forall i: nat, j: nat | i < j < |d.order| && d.order[i].Some? ensures d.order[i] != d.order[j] {
      assert d.PlaceAt(i) && d.PlaceAt(j);
    }
    LiveDistinct(d.order);
    LiveMembers(d.order);
    forall k ensures k in d.entries <==> Some(k) in d.order {
      if k in d.entries { assert d.KeyAt(k); }
      if Some(k) in d.order {
        var i: nat :| i < |d.order| && d.order[i] == Some(k);
        assert d.PlaceAt(i);
      }
    }
  }

  lemma DictGet(d: Dict, k: Key)
    requires d.Ok()
    ensures ValueIn(d.Props(), k) == if k in d.entries then Some(d.entries[k].value) else None
  {
    DictKeysDistinct(d);
    var keys := Live(d.order);
    if k in d.entries {
      var i :| 0 <= i < |keys| && keys[i] == k;
      ZipWrite(keys, ValuesOf(keys, d.entries), i, UNDEFINED);
    } else {
      ZipAbsent(keys, ValuesOf(keys, d.entries), k);
    }
  }

  lemma DictWrite(d: Dict, k: Key, v: Val)
    requires d.Ok() && k in d.entries
    ensures d.Write(k, v).Ok() && d.Write(k, v).Props() == Put(d.Props(), k, v)
  {
    hide Live, Zip, ValuesOf, Put;
    var d' := d.Write(k, v);
    forall j | j in d'.entries ensures d'.KeyAt(j) { assert d.KeyAt(j); }
    forall i: nat | i < |d.order| ensures d'.PlaceAt(i) { assert d.PlaceAt(i); }
    DictKeysDistinct(d);
    var keys := Live(d.order);
    var i :| 0 <= i < |keys| && keys[i] == k;
    ZipWrite(keys, ValuesOf(keys, d.entries), i, v);
    assert ValuesOf(keys, d'.entries) == ValuesOf(keys, d.entries)[i := v];
  }

  lemma DictInsert(d: Dict, k: Key, v: Val)
    requires d.Ok() && k !in d.entries
    ensures d.Insert(k, v).Ok() && d.Insert(k, v).Props() == Put(d.Props(), k, v)
    ensures d.Bounded() ==> d.Insert(k, v).Bounded()
  {
    hide Live, Zip, ValuesOf, Put;
    var d' := d.Insert(k, v);
    forall j | j in d'.entries ensures d'.KeyAt(j) { if j != k { assert d.KeyAt(j); } }
    forall i: nat | i < |d'.order| ensures d'.PlaceAt(i) { if i < |d.order| { assert d.PlaceAt(i); } }
    DictKeysDistinct(d);
    var keys := Live(d.order);
    LiveSnoc(d.order, Some(k));
    ZipPush(keys, ValuesOf(keys, d.entries), k, v);
    assert ValuesOf(keys + [k], d'.entries) == ValuesOf(keys, d.entries) + [v];
  }

  /** A tombstone takes one key out of the list and leaves the rest in order. */
  lemma {:induction false} LiveTombstone(order: seq<Option<Key>>, pos: nat)
    requires pos < |order| && order[pos].Some?
    ensures var r := |Live(order[..pos])|;
      r < |Live(order)| && Live(order)[r] == order[pos].value && Live(order[pos := None]) == Cut(Live(order), r)
  {
    hide Live;
    var n := |order| - 1;
    var init := order[..n];
    assert order == init + [order[n]];
    LiveSnoc(init, order[n]);
    if pos == n {
      LiveSnoc(init, None);
      assert order[pos := None] == init + [None];
    } else {
      LiveTombstone(init, pos);
      LiveSnoc(init[pos := None], order[n]);
      assert init[..pos] == order[..pos];
      assert order[pos := None] == init[pos := None] + [order[n]];
    }
  }

  lemma DictRemove(d: Dict, k: Key)
    requires d.Ok() && k in d.entries
    ensures d.KeyAt(k) && d.Remove(k).Ok() && d.Remove(k).Props() == Without(d.Props(), k)
  {
    hide Live, Zip, ValuesOf, Without;
    assert d.KeyAt(k);
    var d' := d.Remove(k);
    forall j | j in d'.entries ensures d'.KeyAt(j) { assert d.KeyAt(j); }
    forall i: nat | i < |d'.order| ensures d'.PlaceAt(i) { assert d.PlaceAt(i); }
    var pos := d.entries[k].pos;
    LiveTombstone(d.order, pos);
    DictKeysDistinct(d);
    DictKeysDistinct(d');
    var keys, r := Live(d.order), |Live(d.order[..pos])|;
    ZipCut(keys, ValuesOf(keys, d.entries), r);
    CutValues(keys, r, d.entries, d'.entries);
  }

  lemma CutValues(keys: seq<Key>, r: nat, entries: map<Key, DictSlot>, entries': map<Key, DictSlot>)
    requires r < |keys| && (forall k | k in keys :: k in entries)
      && (forall k | k in Cut(keys, r) :: k in entries' && entries'[k] == entries[k])
    ensures ValuesOf(Cut(keys, r), entries') == Cut(ValuesOf(keys, entries), r)
  {
    hide ValuesOf;
    forall i | 0 <= i < |keys| - 1 ensures ValuesOf(Cut(keys, r), entries')[i] == Cut(ValuesOf(keys, entries), r)[i] {
      assert Cut(keys, r)[i] in keys;
    }
  }

  // ---- Dropping the tombstones

  /** `order.retain(Option::is_some)`. */
  function Wrapped(keys: seq<Key>): (order: seq<Option<Key>>)
    ensures |order| == |keys| && forall i | 0 <= i < |keys| :: order[i] == Some(keys[i])
  {
    if keys == [] then [] else Wrapped(keys[..|keys| - 1]) + [Some(keys[|keys| - 1])]
  }

  /** How many live keys come before `pos`: its new index. */
  function Renumber(order: seq<Option<Key>>, pos: nat): nat
    requires pos <= |order|
  {
    |Live(order[..pos])|
  }

  ghost function Compacted(d: Dict): Dict
    requires d.Ok()
  {
    assert forall k | k in d.entries :: d.KeyAt(k);
    Dict(Wrapped(Live(d.order)), map k | k in d.entries :: d.entries[k].(pos := Renumber(d.order, d.entries[k].pos)))
  }

  lemma {:induction false} LiveOfWrapped(keys: seq<Key>)
    ensures Live(Wrapped(keys)) == keys
  {
    if keys != [] {
      var n := |keys| - 1;
      LiveOfWrapped(keys[..n]);
      assert Wrapped(keys)[..n] == Wrapped(keys[..n]);
    }
  }

  /** Compaction keeps the properties and their order, and drops every tombstone. */
  lemma CompactedLaw(d: Dict)
    requires d.Ok()
    ensures Compacted(d).Ok() && Compacted(d).Props() == d.Props() && Compacted(d).Bounded()
  {
    hide Live, Zip, ValuesOf, Wrapped;
    var d' := Compacted(d);
    var keys := Live(d.order);
    DictKeysDistinct(d);
    LiveOfWrapped(keys);
    forall k | k in d.entries ensures d'.KeyAt(k) {
      assert d.KeyAt(k);
      LiveTombstone(d.order, d.entries[k].pos);
    }
    forall i: nat | i < |d'.order| ensures d'.PlaceAt(i) {
      assert keys[i] in d.entries && d'.KeyAt(keys[i]);
    }
    assert ValuesOf(keys, d'.entries) == ValuesOf(keys, d.entries);
    DistinctSize(keys, d.entries.Keys);
    assert d'.entries.Keys == d.entries.Keys;
  }

  lemma {:induction false} DistinctSize(keys: seq<Key>, all: set<Key>)
    requires Distincts(keys) && (forall k :: k in keys <==> k in all)
    ensures |keys| == |all|
  {
    if keys != [] {
      var n := |keys| - 1;
      assert keys == keys[..n] + [keys[n]];
      DistinctSize(keys[..n], all - {keys[n]});
    } else {
      assert all == {};
    }
  }
}
