/** Everything done with ropes is what would be done with the flat strings. */
module Ropes {
  import opened Wrappers
  import opened Wtf8
  import opened Wtf8Ranges
  import opened Wtf8Words
  import opened Powers
  import opened RopeNodes
  import opened RopeFill
  import opened RopeSlices
  import opened RopeWalks

  const SMALL_JOIN: nat := 64
  const SLICE_SHARE_MIN: nat := SMALL_CAP + 1
  const SLICE_SHARE_RATIO: nat := 16
  const TREE_SLICE_STEPS: nat := 64
  const UNIT_WALK_STEPS: nat := 32
  const UNIT_WALK_SCAN: nat := 256

  class Arena {
    var nodes: Nodes

    ghost predicate Valid()
      reads this
    {
      RopeNodes.Valid(nodes)
    }

    ghost function Str(x: Id): (b: seq<Byte>)
      reads this
      requires Valid() && x < |nodes|
      ensures |b| == nodes[x].Len()
    {
      Bytes(nodes, x)
    }

    ghost function Units(x: Id): seq<Unit>
      reads this
      requires Valid() && x < |nodes|
    {
      Content(nodes, x)
    }

    constructor ()
      ensures Valid() && nodes == []
    {
      nodes := [];
    }

    /** Strings already there stay what they were. */
    lemma StillSame(was: Nodes, x: Id)
      requires RopeNodes.Valid(was) && Valid() && Kept(was, nodes) && x < |was|
      ensures x < |nodes| && Str(x) == Bytes(was, x) && Units(x) == Content(was, x) && nodes[x].Len() == was[x].Len()
    {
      BytesKept(was, nodes, x);
    }

    lemma IsCanonical(x: Id)
      requires Valid() && x < |nodes|
      ensures Canonical(Str(x)) && (nodes[x].memo.Some? ==> nodes[x].memo.value == |Units(x)|)
      ensures UnitsIn(Str(x)) == Units(x)
    {
      assert SoundAt(nodes, x);
    }

    /** `Node::flat`, of canonical bytes. */
    method Flat(bytes: seq<Byte>, memo: Option<nat>) returns (x: Id)
      requires Valid() && Canonical(bytes) && |bytes| <= MAX_STRING_LEN
        && (memo.Some? ==> memo.value == |UnitsIn(bytes)|)
      modifies this
      ensures Valid() && Kept(old(nodes), nodes) && x == |old(nodes)| < |nodes|
      ensures Str(x) == bytes && Units(x) == UnitsIn(bytes)
    {
      hide Canonical;
      var n := if |bytes| <= SMALL_CAP then Small(bytes, memo) else Leaf(bytes, memo);
      FlatLinked(nodes, n);
      PushValid(nodes, n);
      x := |nodes|;
      nodes := nodes + [n];
    }

    /** `Rope::new`. */
    method Empty() returns (x: Id)
      requires Valid()
      modifies this
      ensures Valid() && Kept(old(nodes), nodes) && x == |old(nodes)| < |nodes| && Units(x) == [] && nodes[x].Len() == 0
    {
      x := Flat([], None);
    }

    /** Remembering a length on a node. */
    method Remember(x: Id, n: nat)
      requires Valid() && x < |nodes| && n == |Units(x)|
      modifies this
      ensures Valid() && Kept(old(nodes), nodes) && |nodes| == |old(nodes)|
    {
      MemoValid(nodes, x, n);
      nodes := nodes[x := nodes[x].With(Some(n))];
    }

    /** `flat_bytes`. */
    method FlatBytes(x: Id) returns (b: Option<seq<Byte>>)
      requires Valid() && x < |nodes|
      ensures b == if nodes[x].Concat? then None else Some(Str(x))
    {
      assert LinkedAt(nodes, x);
      match nodes[x]
      case Small(bytes, _) => b := Some(bytes);
      case Leaf(bytes, _) => b := Some(bytes);
      case Slice(base, start, len, _) => b := Some(nodes[base].bytes[start..start + len]);
      case Concat(_, _, _, _) => b := None;
    }

    /** `utf16_len`: counted once, from a stack of the nodes still to count, and remembered. */
    method Utf16Length(x: Id) returns (n: nat)
      requires Valid() && x < |nodes|
      modifies this
      ensures Valid() && Kept(old(nodes), nodes) && |nodes| == |old(nodes)| && n == |old(Units(x))| && n == |Units(x)|
      decreases x
    {
      hide Canonical, Bytes, UnitsIn, Weight, StackWeight, StackUnits;
      IsCanonical(x);
      ghost var was := nodes;
      if nodes[x].memo.Some? { return nodes[x].memo.value; }
      if !nodes[x].Concat? {
        var b := FlatBytes(x);
        n := Utf16LenByWords(b.value);
        Remember(x, n);
        StillSame(was, x);
        return;
      }
      n := 0;
      var stack := [x];
      StackPush(nodes, [], x);
      StackOfNothing(nodes);
      assert [] + [x] == stack;
      while stack != []
        invariant Valid() && Kept(was, nodes) && |nodes| == |was|
        invariant AllIn(nodes, stack) && forall i | 0 <= i < |stack| :: stack[i] <= x
        invariant n + StackUnits(nodes, stack) == |Content(was, x)|
        decreases StackWeight(nodes, stack)
      {
        var s := stack[|stack| - 1];
        var rest := stack[..|stack| - 1];
        assert stack == rest + [s];
        StackPush(nodes, rest, s);
        WeightIsPositive(nodes, s);
        IsCanonical(s);
        ghost var before := nodes;
        assert nodes[s].With(None) == was[s].With(None);
        if nodes[s].memo.Some? && !nodes[s].Small? {
          n := n + nodes[s].memo.value;
          stack := rest;
        } else if nodes[s].Concat? {
          ConcatContent(nodes, s);
          WeightOfConcat(nodes, s);
          StackPush(nodes, rest, nodes[s].right);
          StackPush(nodes, rest + [nodes[s].right], nodes[s].left);
          stack := rest + [nodes[s].right] + [nodes[s].left];
        } else {
          var m: nat;
          if nodes[s].Slice? {
            m := Utf16Length(s);
          } else {
            var b := FlatBytes(s);
            m := Utf16LenByWords(b.value);
            if nodes[s].Leaf? { Remember(s, m); }
          }
          n := n + m;
          stack := rest;
          StackKept(before, nodes, rest);
        }
      }
      StackOfNothing(nodes);
      StillSame(was, x);
      Remember(x, n);
      StillSame(was, x);
    }

    lemma WeightIsPositive(ns: Nodes, x: Id)
      requires Linked(ns) && x < |ns|
      ensures Weight(ns, x) >= 1
    {
    }

    lemma WeightOfConcat(ns: Nodes, x: Id)
      requires Linked(ns) && x < |ns| && ns[x].Concat?
      ensures LinkedAt(ns, x) && Weight(ns, x) == 1 + Weight(ns, ns[x].left) + Weight(ns, ns[x].right)
    {
      assert LinkedAt(ns, x);
    }

    lemma StackOfNothing(ns: Nodes)
      requires Linked(ns)
      ensures StackUnits(ns, []) == 0 && StackWeight(ns, []) == 0
    {
    }

    /** `is_ascii`. */
    method IsAscii(x: Id) returns (ascii: bool)
      requires Valid() && x < |nodes|
      modifies this
      ensures Valid() && Kept(old(nodes), nodes) && |nodes| == |old(nodes)|
      ensures ascii ==> Str(x) == Units(x) && Text(Str(x)) == Str(x)
    {
      ghost var was := nodes;
      var n := Utf16Length(x);
      StillSame(was, x);
      IsCanonical(x);
      ascii := nodes[x].Len() == n;
      if ascii { AsciiText(Str(x)); }
    }

    /** `utf16_len_if_cheap`. */
    method Utf16LengthIfCheap(x: Id) returns (n: Option<nat>)
      requires Valid() && x < |nodes|
      modifies this
      ensures Valid() && Kept(old(nodes), nodes) && |nodes| == |old(nodes)|
      ensures n.Some? ==> n.value == |old(Units(x))|
    {
      IsCanonical(x);
      if nodes[x].Small? {
        var m := Utf16Length(x);
        return Some(m);
      }
      n := nodes[x].memo;
    }

    // ---- Concatenation

    /** `last_leaf_bytes` and `first_leaf_bytes`, for the surrogate each end may have. */
    method LastHigh(x: Id) returns (u: Option<Unit>)
      requires Valid() && x < |nodes|
      ensures u == TrailingHigh(Str(x))
    {
      LastLeafEnds(nodes, x);
      var node: Id := x;
      while nodes[node].Concat?
        invariant node < |nodes| && LastLeaf(nodes, node) == LastLeaf(nodes, x)
        decreases node
      {
        assert LinkedAt(nodes, node);
        node := nodes[node].right;
      }
      var b := FlatBytes(node);
      u := TrailingHigh(b.value);
    }

    method FirstLow(x: Id) returns (u: Option<Unit>)
      requires Valid() && x < |nodes|
      ensures u == LeadingLow(Str(x))
    {
      FirstLeafStarts(nodes, x);
      var node: Id := x;
      while nodes[node].Concat?
        invariant node < |nodes| && FirstLeaf(nodes, node) == FirstLeaf(nodes, x)
        decreases node
      {
        assert LinkedAt(nodes, node);
        node := nodes[node].left;
      }
      var b := FlatBytes(node);
      u := LeadingLow(b.value);
    }

    lemma EmptySide(x: Id)
      requires Valid() && x < |nodes|
      ensures nodes[x].Len() == 0 ==> Units(x) == [] && Str(x) == []
    {
      ContentSize(nodes, x);
    }

    /** `try_concat`: the units of one side and then the other, unless the bytes would be too
        many. */
    method TryConcat(a: Id, b: Id) returns (r: Option<Id>)
      requires Valid() && a < |nodes| && b < |nodes|
      modifies this
      ensures Valid() && Kept(old(nodes), nodes)
      ensures r.None? <==>
        old(nodes)[a].Len() > 0 && old(nodes)[b].Len() > 0 && old(nodes)[a].Len() + old(nodes)[b].Len() > MAX_STRING_LEN
      ensures r.Some? ==> r.value < |nodes| && Units(r.value) == old(Units(a)) + old(Units(b))
      ensures r.Some? ==> nodes[r.value].Len() <= old(nodes)[a].Len() + old(nodes)[b].Len()
    {
      hide Canonical, Bytes, UnitsIn, TrailingHigh, LeadingLow, Append;
      ghost var was := nodes;
      EmptySide(a);
      EmptySide(b);
      if nodes[a].Len() == 0 { return Some(b); }
      if nodes[b].Len() == 0 { return Some(a); }
      var len := nodes[a].Len() + nodes[b].Len();
      if len > MAX_STRING_LEN { return None; }
      IsCanonical(a);
      IsCanonical(b);
      AppendLaw(Str(a), Str(b));
      var lo := FirstLow(b);
      var hi := LastHigh(a);
      if lo.Some? && hi.Some? {
        var left := Materialize(a);
        var right := Materialize(b);
        ByAppend(left, right, hi.value, lo.value);
        var x := Flat(left[..|left| - 3] + Encode(Astral(hi.value, lo.value)) + right[3..], None);
        return Some(x);
      }
      NoSeam(Str(a), Str(b));
      var ua := Utf16LengthIfCheap(a);
      StillSame(was, b);
      var ub := Utf16LengthIfCheap(b);
      StillSame(was, a);
      StillSame(was, b);
      var memo := if ua.Some? && ub.Some? then Some(ua.value + ub.value) else None;
      if len <= SMALL_JOIN && !nodes[a].Concat? && !nodes[b].Concat? {
        var left := FlatBytes(a);
        var right := FlatBytes(b);
        var x := Flat(left.value + right.value, memo);
        return Some(x);
      }
      var x := Join(a, b, len, memo);
      r := Some(x);
    }

    lemma ByAppend(a: seq<Byte>, b: seq<Byte>, hi: Unit, lo: Unit)
      requires TrailingHigh(a) == Some(hi) && LeadingLow(b) == Some(lo)
      ensures |a| >= 3 && |b| >= 3 && IsHigh(hi) && IsLow(lo)
      ensures a[..|a| - 3] + Encode(Astral(hi, lo)) + b[3..] == Append(a, b)
    {
    }

    lemma NoSeam(a: seq<Byte>, b: seq<Byte>)
      ensures TrailingHigh(a).None? || LeadingLow(b).None? ==> Append(a, b) == a + b
    {
    }

    /** A new `Concat` node. */
    method Join(a: Id, b: Id, len: nat, memo: Option<nat>) returns (x: Id)
      requires Valid() && a < |nodes| && b < |nodes| && nodes[a].Len() > 0 && nodes[b].Len() > 0
      requires len == nodes[a].Len() + nodes[b].Len() <= MAX_STRING_LEN
      requires Canonical(Str(a) + Str(b)) && UnitsIn(Str(a) + Str(b)) == Units(a) + Units(b)
      requires memo.Some? ==> memo.value == |Units(a)| + |Units(b)|
      modifies this
      ensures Valid() && Kept(old(nodes), nodes) && x == |old(nodes)| < |nodes|
      ensures Units(x) == old(Units(a)) + old(Units(b)) && nodes[x].Len() == len
    {
      hide Canonical, UnitsIn;
      ghost var was := nodes;
      x := |nodes|;
      var n := Concat(a, b, len, memo);
      assert LinkedAt(nodes + [n], x);
      PushLinked(nodes, n);
      BytesKept(was, nodes + [n], a);
      BytesKept(was, nodes + [n], b);
      JoinedBytes(nodes + [n], x);
      PushValid(nodes, n);
      nodes := nodes + [n];
    }

    lemma JoinedBytes(ns: Nodes, x: Id)
      requires Linked(ns) && x < |ns| && ns[x].Concat?
      ensures LinkedAt(ns, x) && Bytes(ns, x) == Bytes(ns, ns[x].left) + Bytes(ns, ns[x].right)
    {
      assert LinkedAt(ns, x);
    }

    // ---- Flattening

    /** `materialize_bytes`. */
    method Materialize(x: Id) returns (b: seq<Byte>)
      requires Valid() && x < |nodes|
      ensures b == Str(x)
    {
      if !nodes[x].Concat? {
        var f := FlatBytes(x);
        return f.value;
      }
      var out := new Byte[nodes[x].Len()](_ => 0);
      ghost var _ := FillBytes(x, out);
      b := out[..];
    }

    /** `fill_bytes`: each piece goes straight to its place, the shorter side of a concatenation
        first. `deepest` is the most pieces that ever waited at once. */
    method FillBytes(x: Id, out: array<Byte>) returns (ghost deepest: nat)
      requires Valid() && x < |nodes| && out.Length == nodes[x].Len()
      modifies out
      ensures out[..] == Str(x)
      ensures deepest <= 1 || Pow2(deepest) <= out.Length
    {
      hide Canonical, Bytes, UnitsIn, Weight, TodoWeight, Filling, Sides, Pow2;
      ghost var total := Str(x);
      var stack := [Todo(x, 0)];
      deepest := 1;
      FillStarts(nodes, x, out[..]);
      while stack != []
        invariant Filling(nodes, stack, out[..], total) && |total| == out.Length
        invariant deepest <= 1 || Pow2(deepest) <= out.Length
        decreases TodoWeight(nodes, stack)
      {
        var e := stack[|stack| - 1];
        ghost var all := stack;
        stack := stack[..|stack| - 1];
        assert all == stack + [e];
        InPlace(stack, e, out[..], total);
        while nodes[e.node].Concat?
          invariant e.node < |nodes| && e.at + nodes[e.node].Len() <= out.Length
          invariant Filling(nodes, stack + [e], out[..], total)
          invariant TodoWeight(nodes, stack + [e]) <= TodoWeight(nodes, all)
          invariant deepest <= 1 || Pow2(deepest) <= out.Length
          decreases TodoWeight(nodes, stack + [e])
        {
          TodoDescend(nodes, stack, e);
          Descend(nodes, stack, e, out[..], total);
          var (big, small) := Sides(nodes, e);
          stack := stack + [big];
          SmallHolds(e);
          e := small;
          InPlace(stack, e, out[..], total);
          FewWait(nodes, stack, e, out[..], total);
          if |stack| > deepest { deepest := |stack|; }
        }
        var b := FlatBytes(e.node);
        ghost var before := out[..];
        forall i | 0 <= i < |b.value| { out[e.at + i] := b.value[i]; }
        assert out[..] == before[..e.at] + b.value + before[e.at + |b.value|..];
        PieceWritten(nodes, stack, e, before, out[..], total);
        TodoPush(nodes, stack, e);
      }
      FillDone(nodes, out[..], total);
    }

    lemma InPlace(rest: seq<Todo>, e: Todo, out: seq<Byte>, total: seq<Byte>)
      requires Filling(nodes, rest + [e], out, total)
      ensures e.node < |nodes| && e.at + nodes[e.node].Len() <= |out|
    {
      assert (rest + [e])[|rest|] == e;
      assert Placed(nodes, e, total);
    }

    lemma SmallHolds(e: Todo)
      requires Valid() && e.node < |nodes| && nodes[e.node].Concat?
      ensures LinkedAt(nodes, e.node) && nodes[Sides(nodes, e).1.node].Len() > 0
    {
      assert LinkedAt(nodes, e.node);
    }

    // ---- Slices

    /** `concat`, of sides that are not too long together. */
    method Concatenate(a: Id, b: Id) returns (r: Id)
      requires Valid() && a < |nodes| && b < |nodes|
      modifies this
      ensures Valid() && Kept(old(nodes), nodes) && r < |nodes|
      ensures old(nodes)[a].Len() + old(nodes)[b].Len() <= MAX_STRING_LEN ==> Units(r) == old(Units(a)) + old(Units(b))
      ensures nodes[r].Len() <= old(nodes)[a].Len() + old(nodes)[b].Len()
    {
      ghost var was := nodes;
      var joined := TryConcat(a, b);
      StillSame(was, a);
      r := if joined.Some? then joined.value else a;
    }

    /** `share_bytes`: a long enough piece of a flat string shares its bytes, any other is copied. */
    method ShareBytes(x: Id, b0: nat, b1: nat, units: nat) returns (r: Id)
      requires Valid() && x < |nodes| && !nodes[x].Concat? && b0 <= b1 <= |Str(x)|
      requires Canonical(Str(x)[b0..b1]) && units == |UnitsIn(Str(x)[b0..b1])|
      modifies this
      ensures Valid() && Kept(old(nodes), nodes) && r < |nodes| && Str(r) == old(Str(x))[b0..b1]
    {
      hide Canonical, UnitsIn;
      var bytes := FlatBytes(x);
      assert LinkedAt(nodes, x);
      var len := b1 - b0;
      if len == |bytes.value| {
        assert bytes.value[b0..b1] == bytes.value;
        return x;
      }
      if nodes[x].Small? {
        r := Flat(bytes.value[b0..b1], None);
        return;
      }
      var base, start := if nodes[x].Slice? then nodes[x].base else x, if nodes[x].Slice? then nodes[x].start else 0;
      if len < SLICE_SHARE_MIN || len * SLICE_SHARE_RATIO < nodes[base].Len() {
        r := Flat(bytes.value[b0..b1], None);
        return;
      }
      SliceOfSlice(nodes[base].bytes, start, |bytes.value|, b0, b1);
      r := NewSlice(base, start + b0, len, units);
    }

    /** A new `Slice` node. */
    method NewSlice(base: Id, start: nat, len: nat, units: nat) returns (x: Id)
      requires Valid() && base < |nodes| && nodes[base].Leaf? && start + len <= |nodes[base].bytes|
      requires var b := nodes[base].bytes[start..start + len]; Canonical(b) && units == |UnitsIn(b)|
      modifies this
      ensures Valid() && Kept(old(nodes), nodes) && x == |old(nodes)| < |nodes|
      ensures Str(x) == old(nodes)[base].bytes[start..start + len]
    {
      hide Canonical, UnitsIn;
      assert LinkedAt(nodes, base);
      x := |nodes|;
      var n := Slice(base, start, len, Some(units));
      assert LinkedAt(nodes + [n], x);
      PushValid(nodes, n);
      nodes := nodes + [n];
    }

    lemma SliceOfSlice(b: seq<Byte>, start: nat, len: nat, b0: nat, b1: nat)
      requires start + len <= |b| && b0 <= b1 <= len
      ensures b[start..start + len][b0..b1] == b[start + b0..start + b1]
    {
      var l, r := b[start..start + len][b0..b1], b[start + b0..start + b1];
      assert |l| == |r| && forall i | 0 <= i < |l| :: l[i] == r[i];
    }

    /** `slice_units_from`: a flat string's units from `start` to `end`, each clamped, and a
        boundary to search from next time. */
    method SliceUnitsFrom(x: Id, hint: (nat, nat), start: nat, end: nat) returns (r: Option<(Id, (nat, nat))>)
      requires Valid() && x < |nodes| && (!nodes[x].Concat? ==> Boundary(Str(x), hint.0, hint.1))
      modifies this
      ensures Valid() && Kept(old(nodes), nodes)
      ensures r.None? <==> old(nodes)[x].Concat?
      ensures r.Some? ==> r.value.0 < |nodes| && Boundary(old(Str(x)), r.value.1.0, r.value.1.1)
      ensures r.Some? ==> var us := old(Units(x)); var e := Least(end, |us|);
        Units(r.value.0) == us[Least(start, e)..e]
    {
      hide Canonical, UnitsIn, Text, Bytes, Encode, EncodeAll, Boundary;
      ghost var was := nodes;
      if nodes[x].Concat? { return None; }
      var bytes := FlatBytes(x);
      IsCanonical(x);
      var units := Utf16Length(x);
      StillSame(was, x);
      var e := Least(end, units);
      var s := Least(start, e);
      if s == e {
        var none := Empty();
        return Some((none, hint));
      }
      var ascii := IsAscii(x);
      StillSame(was, x);
      SameKind(was, x);
      if ascii {
        AsciiRange(bytes.value, s, e);
        var piece := ShareBytes(x, s, e, e - s);
        return Some((piece, (s, s)));
      }
      var range := Utf16Range(bytes.value, hint, s, e, units);
      var lead, trail := if range.lead.Some? then 1 else 0, if range.trail.Some? then 1 else 0;
      RangeParts(bytes.value, range, s, e);
      var mid := ShareBytes(x, range.start, range.end, e - s - lead - trail);
      var at := (range.start, s + lead);
      if lead + trail == 0 { return Some((mid, at)); }
      assert LinkedAt(nodes, x);
      var out := WithHalves(mid, range.lead, range.trail);
      r := Some((out, at));
    }

    lemma SameKind(was: Nodes, x: Id)
      requires Kept(was, nodes) && x < |was|
      ensures nodes[x].Concat? == was[x].Concat?
    {
      assert nodes[x].With(None) == was[x].With(None);
    }

    lemma AsciiRange(b: seq<Byte>, s: nat, e: nat)
      requires Canonical(b) && b == UnitsIn(b) && Text(b) == b && s <= e <= |b|
      ensures Canonical(b[s..e]) && UnitsIn(b[s..e]) == b[s..e] && Boundary(b, s, s)
    {
      AsciiPrefix(b, s);
      AsciiPrefix(b, e);
      Between(b, s, e);
      assert BoundaryAt(Text(b), s, s, s);
      EncodedIsCanonical(b[s..e]);
      hide EncodeAll, Text;
    }

    lemma AsciiPrefix(b: seq<Byte>, k: nat)
      requires Canonical(b) && b == UnitsIn(b) && Text(b) == b && k <= |b|
      ensures ByteAt(b, k) == k && UnitAt(b, k) == k
    {
      hide Canonical, EncodeAll, Wtf8.Units, UnitsIn, Text;
      CanonicalParts(b);
      SplitAt(b, k);
      PlainSizes(b[..k]);
      PlainSizes(b[k..]);
    }

    lemma PlainSizes(cs: seq<Char>)
      ensures |EncodeAll(cs)| >= |cs| && |Wtf8.Units(cs)| >= |cs|
    {
    }

    lemma RangeParts(b: seq<Byte>, r: UnitRange, s: nat, e: nat)
      requires RangeOf(b, r, s, e)
      ensures r.start <= r.end <= |b| && Canonical(b[r.start..r.end]) && s <= e <= |UnitsIn(b)|
      ensures e - s == |Opt(r.lead)| + |UnitsIn(b[r.start..r.end])| + |Opt(r.trail)|
      ensures UnitsIn(b)[s..e] == Opt(r.lead) + UnitsIn(b[r.start..r.end]) + Opt(r.trail)
      ensures (r.lead.Some? ==> IsLow(r.lead.value)) && (r.trail.Some? ==> IsHigh(r.trail.value))
      ensures |b[r.start..r.end]| + 3 * |Opt(r.lead)| + 3 * |Opt(r.trail)| <= |b|
      ensures Boundary(b, r.start, s + |Opt(r.lead)|)
    {
      hide Canonical, UnitsIn, Boundary;
    }

    /** The halves of split code points put before and after the whole ones. */
    method WithHalves(mid: Id, lead: Option<Unit>, trail: Option<Unit>) returns (out: Id)
      requires Valid() && mid < |nodes| && (lead.Some? ==> IsLow(lead.value)) && (trail.Some? ==> IsHigh(trail.value))
      requires nodes[mid].Len() + 3 * |Opt(lead)| + 3 * |Opt(trail)| <= MAX_STRING_LEN
      modifies this
      ensures Valid() && Kept(old(nodes), nodes) && out < |nodes|
      ensures Units(out) == Opt(lead) + old(Units(mid)) + Opt(trail)
    {
      hide Canonical, UnitsIn, Encode;
      ghost var was := nodes;
      var first := Lone(lead);
      StillSame(was, mid);
      ghost var was1 := nodes;
      out := Concatenate(first, mid);
      if trail.Some? {
        ghost var was2 := nodes;
        var last := Lone(trail);
        StillSame(was2, out);
        out := Concatenate(out, last);
      }
    }

    /** A lone surrogate as a string, or the empty string. */
    method Lone(u: Option<Unit>) returns (x: Id)
      requires Valid() && (u.Some? ==> IsLow(u.value) || IsHigh(u.value))
      modifies this
      ensures Valid() && Kept(old(nodes), nodes) && x == |old(nodes)| < |nodes|
      ensures Units(x) == Opt(u) && nodes[x].Len() == 3 * |Opt(u)|
    {
      if u.Some? {
        LoneBytes(u.value);
        x := Flat(EncodeAll(FromUnits([u.value])), None);
      } else {
        x := Empty();
      }
    }

    lemma LoneBytes(u: Unit)
      requires IsLow(u) || IsHigh(u)
      ensures var b := EncodeAll(FromUnits([u]));
        Canonical(b) && UnitsIn(b) == [u] && |b| == 3
    {
      assert FromUnits([u]) == [u];
      OneChar(u);
      EncodedIsCanonical([u]);
      EncodedSurrogate(u);
    }

    /** `slice_units`. */
    method SliceUnits(x: Id, start: nat, end: nat) returns (r: Option<Id>)
      requires Valid() && x < |nodes|
      modifies this
      ensures Valid() && Kept(old(nodes), nodes)
      ensures r.None? <==> old(nodes)[x].Concat?
      ensures r.Some? ==> r.value < |nodes|
      ensures r.Some? ==> var us := old(Units(x)); var e := Least(end, |us|);
        Units(r.value) == us[Least(start, e)..e]
    {
      if !nodes[x].Concat? { StartIsBoundary(Str(x)); }
      var found := SliceUnitsFrom(x, (0, 0), start, end);
      r := if found.Some? then Some(found.value.0) else None;
    }

    // ---- Walks down the tree

    /** `child_units`: the lengths of both sides, from the whole's and at most one side's. */
    method ChildUnits(x: Id, units: nat) returns (lu: nat, ru: nat)
      requires Valid() && x < |nodes| && nodes[x].Concat? && units == |Units(x)|
      modifies this
      ensures Valid() && Kept(old(nodes), nodes) && |nodes| == |old(nodes)|
      ensures LinkedAt(nodes, x) && nodes[x].Concat?
      ensures lu == |Units(nodes[x].left)| && ru == |Units(nodes[x].right)|
    {
      hide Canonical, UnitsIn, Bytes, Text, Content;
      ghost var was := nodes;
      ConcatContent(nodes, x);
      var left, right := nodes[x].left, nodes[x].right;
      if units == nodes[left].Len() + nodes[right].Len() {
        AsciiSides(x);
        return nodes[left].Len(), nodes[right].Len();
      }
      if nodes[left].Len() <= nodes[right].Len() {
        lu := Utf16Length(left);
        ru := units - lu;
      } else {
        ru := Utf16Length(right);
        lu := units - ru;
      }
      StillSame(was, left);
      StillSame(was, right);
      assert nodes[x].With(None) == was[x].With(None);
      assert LinkedAt(nodes, x);
    }

    /** A whole with as many bytes as units has sides of the same kind. */
    lemma AsciiSides(x: Id)
      requires Valid() && x < |nodes| && nodes[x].Concat? && LinkedAt(nodes, x)
      requires |Units(x)| == nodes[nodes[x].left].Len() + nodes[nodes[x].right].Len()
      requires Units(x) == Units(nodes[x].left) + Units(nodes[x].right)
      ensures |Units(nodes[x].left)| == nodes[nodes[x].left].Len()
        && |Units(nodes[x].right)| == nodes[nodes[x].right].Len()
    {
      NoMoreUnits(nodes[x].left);
      NoMoreUnits(nodes[x].right);
    }

    lemma NoMoreUnits(x: Id)
      requires Valid() && x < |nodes|
      ensures |Units(x)| <= nodes[x].Len()
    {
      IsCanonical(x);
      AsciiChars(Text(Str(x)));
    }

    /** Down to the smallest subtree holding the range: the first half of `slice_units_tree`. */
    method Narrow(x: Id, start: nat, end: nat, total: nat) returns (at: Option<Span>, steps: nat)
      requires Valid() && x < |nodes| && SpanIn(nodes, Span(x, total, start, end)) && start < end
      modifies this
      ensures Valid() && Kept(old(nodes), nodes) && |nodes| == |old(nodes)| && steps <= TREE_SLICE_STEPS + 1
      ensures at.Some? ==> SpanIn(nodes, at.value) && at.value.a < at.value.b
      ensures at.Some? ==> SpanUnits(nodes, at.value) == old(SpanUnits(nodes, Span(x, total, start, end)))
      ensures at.None? ==> old(SliceSteps(nodes, x, start, end)) > TREE_SLICE_STEPS
      ensures at.Some? ==> steps <= TREE_SLICE_STEPS && at.value.node < |nodes|
      ensures at.Some? ==>
        steps + JoinSteps(nodes, at.value.node, at.value.a, at.value.b) == old(SliceSteps(nodes, x, start, end))
    {
      hide Canonical, UnitsIn, Bytes, Content, SpanIn, SpanUnits;
      SpanFacts(nodes, Span(x, total, start, end));
      ghost var goal, all := SpanUnits(nodes, Span(x, total, start, end)), SliceSteps(nodes, x, start, end);
      var s := Span(x, total, start, end);
      steps := 0;
      while true
        invariant Valid() && Kept(old(nodes), nodes) && |nodes| == |old(nodes)| && steps <= TREE_SLICE_STEPS
        invariant SpanIn(nodes, s) && s.a < s.b && SpanUnits(nodes, s) == goal
        invariant s.node < |nodes| && steps + SliceSteps(nodes, s.node, s.a, s.b) == all
        decreases s.node
      {
        SpanFacts(nodes, s);
        if !nodes[s.node].Concat? { return Some(s), steps; }
        steps := steps + 1;
        if steps > TREE_SLICE_STEPS { return None, steps; }
        ghost var was := nodes;
        var lu, ru := ChildUnits(s.node, s.units);
        SpanKept(was, nodes, s);
        StepsKept(was, nodes, s.node, s.a, s.b);
        SpanSplits(nodes, s, lu, ru);
        if s.b <= lu {
          s := Span(nodes[s.node].left, lu, s.a, s.b);
        } else if s.a >= lu {
          s := Span(nodes[s.node].right, ru, s.a - lu, s.b - lu);
        } else {
          return Some(s), steps;
        }
      }
    }

    lemma SpanFacts(ns: Nodes, s: Span)
      requires SpanIn(ns, s)
      ensures s.node < |ns| && Linked(ns) && s.units == |Content(ns, s.node)| && s.a <= s.b <= s.units
      ensures SpanUnits(ns, s) == Content(ns, s.node)[s.a..s.b]
      ensures s.a == 0 && s.b == s.units ==> SpanUnits(ns, s) == Content(ns, s.node)
    {
    }

    /** Whether `slice_units_tree` gets through: an empty range, or a walk short enough. */
    ghost predicate WalkSlices(x: Id, start: nat, end: nat)
      reads this
      requires Valid() && x < |nodes|
    {
      var e := Least(end, |Units(x)|);
      start < e ==> SliceSteps(nodes, x, start, e) <= TREE_SLICE_STEPS
    }

    /** `slice_units_tree`: the range of the flat string, each end clamped. It answers exactly
        for concatenations, when the walk enters no more nodes than the limit. */
    method SliceUnitsTree(x: Id, start: nat, end: nat) returns (r: Option<Id>)
      requires Valid() && x < |nodes|
      modifies this
      ensures Valid() && Kept(old(nodes), nodes)
      ensures r.Some? ==> r.value < |nodes|
      ensures r.Some? ==> var us := old(Units(x)); var e := Least(end, |us|);
        Units(r.value) == us[Least(start, e)..e]
      ensures r.None? <==> !old(nodes)[x].Concat? || !old(WalkSlices(x, start, end))
    {
      hide Canonical, UnitsIn, Bytes, Content, SpanUnits;
      if !nodes[x].Concat? { return None; }
      ghost var was := nodes;
      var total := Utf16Length(x);
      StillSame(was, x);
      StepsKept(was, nodes, x, start, Least(end, total));
      var e := Least(end, total);
      var s := Least(start, e);
      if s == e {
        var none := Empty();
        return Some(none);
      }
      SpanFacts(nodes, Span(x, total, s, e));
      ghost var goal := Units(x)[s..e];
      var at, steps := Narrow(x, s, e, total);
      if at.None? { return None; }
      SpanFacts(nodes, at.value);
      if !nodes[at.value.node].Concat? {
        r := SliceUnits(at.value.node, at.value.a, at.value.b);
        return;
      }
      r := JoinSpans(at.value, steps);
    }

    /** The second half of `slice_units_tree`: the pieces of a range over several nodes, whole
        subtrees shared and flat ends sliced, joined left to right. */
    method JoinSpans(whole: Span, stepsSoFar: nat) returns (r: Option<Id>)
      requires Valid() && SpanIn(nodes, whole) && stepsSoFar <= TREE_SLICE_STEPS
      modifies this
      ensures Valid() && Kept(old(nodes), nodes)
      ensures r.Some? ==> r.value < |nodes| && Units(r.value) == old(SpanUnits(nodes, whole))
      ensures r.None? <==>
        stepsSoFar + old(JoinSteps(nodes, whole.node, whole.a, whole.b)) > TREE_SLICE_STEPS
    {
      hide Canonical, UnitsIn, Bytes, Content, SpanUnits, AllUnits, SpansWeight, Weight, SpanIn, Size,
        SpansSteps, SpansSize, JoinSteps;
      SpanFacts(nodes, whole);
      ghost var goal, all := SpanUnits(nodes, whole), stepsSoFar + JoinSteps(nodes, whole.node, whole.a, whole.b);
      NodeSize(nodes, whole.node);
      SliceSize(Units(whole.node), whole.a, whole.b);
      ghost var was := nodes;
      var steps := stepsSoFar;
      var out: Id := Empty();
      SpanKept(was, nodes, whole);
      StepsKept(was, nodes, whole.node, whole.a, whole.b);
      var stack := [whole];
      NoSpans(nodes);
      SpanPush(nodes, [], whole);
      TallyPush(nodes, [], whole);
      assert [] + [whole] == stack;
      while stack != []
        invariant Valid() && Kept(was, nodes) && out < |nodes| && SpansIn(nodes, stack)
        invariant Units(out) + AllUnits(nodes, stack) == goal
        invariant steps <= TREE_SLICE_STEPS && steps + SpansSteps(nodes, stack) == all
        invariant nodes[out].Len() + SpansSize(nodes, stack) <= MAX_STRING_LEN
        decreases SpansWeight(nodes, stack)
      {
        var s := stack[|stack| - 1];
        var rest := stack[..|stack| - 1];
        assert stack == rest + [s];
        SpanPush(nodes, rest, s);
        TallyPush(nodes, rest, s);
        SpanFacts(nodes, s);
        WeightIsPositive(nodes, s.node);
        CoveredOrEntered(nodes, s);
        ghost var before := nodes;
        if nodes[s.node].Concat? && !(s.a == 0 && s.b == s.units) {
          steps := steps + 1;
          if steps > TREE_SLICE_STEPS { return None; }
          var lu, ru := ChildUnits(s.node, s.units);
          StillSame(before, out);
          SpansKept(before, nodes, rest);
          TallyKept(before, nodes, rest);
          SpanKept(before, nodes, s);
          StepsKept(before, nodes, s.node, s.a, s.b);
          WeightKept(before, nodes, s.node);
          WeightOfConcat(nodes, s.node);
          var left, right := nodes[s.node].left, nodes[s.node].right;
          stack := Halved(s, rest, lu, ru);
        } else {
          out := AppendPiece(out, s);
          SpansKept(before, nodes, rest);
          TallyKept(before, nodes, rest);
          stack := rest;
        }
      }
      NoSpans(nodes);
      r := Some(out);
    }

    lemma CoveredOrEntered(ns: Nodes, s: Span)
      requires SpanIn(ns, s) && Linked(ns) && s.node < |ns|
      ensures !ns[s.node].Concat? || (s.a == 0 && s.b == s.units) <==> JoinSteps(ns, s.node, s.a, s.b) == 0
    {
      hide Content;
    }

    /** `out` with the units of a whole node, or of part of a flat one, after it. Pieces of one
        string never come to more than a string may hold. */
    method AppendPiece(out: Id, s: Span) returns (r: Id)
      requires Valid() && out < |nodes| && SpanIn(nodes, s)
      requires !nodes[s.node].Concat? || (s.a == 0 && s.b == s.units)
      requires nodes[out].Len() + Size(SpanUnits(nodes, s)) <= MAX_STRING_LEN
      modifies this
      ensures Valid() && Kept(old(nodes), nodes)
      ensures r < |nodes| && Units(r) == old(Units(out)) + old(SpanUnits(nodes, s))
      ensures nodes[r].Len() <= old(nodes[out].Len()) + Size(old(SpanUnits(nodes, s)))
    {
      hide Canonical, UnitsIn, Bytes, Content, SpanUnits, Size;
      SpanFacts(nodes, s);
      ghost var before := nodes;
      var piece := s.node;
      if !(s.a == 0 && s.b == s.units) {
        var sliced := SliceUnits(s.node, s.a, s.b);
        piece := sliced.value;
      }
      StillSame(before, out);
      ghost var sofar := nodes;
      NodeSize(nodes, piece);
      var joined := TryConcat(out, piece);
      r := joined.value;
      KeptTransitive(before, sofar, nodes);
    }

    lemma NoSpans(ns: Nodes)
      requires Linked(ns)
      ensures AllUnits(ns, []) == [] && SpansWeight(ns, []) == 0
      ensures SpansSteps(ns, []) == 0 && SpansSize(ns, []) == 0
    {
    }

    /** The sides of a range, the left one on top. */
    method Halved(s: Span, rest: seq<Span>, lu: nat, ru: nat) returns (stack: seq<Span>)
      requires Valid() && SpanIn(nodes, s) && SpansIn(nodes, rest)
      requires nodes[s.node].Concat? && LinkedAt(nodes, s.node)
      requires lu == |Units(nodes[s.node].left)| && ru == |Units(nodes[s.node].right)|
      ensures SpansIn(nodes, stack)
      ensures AllUnits(nodes, stack) == SpanUnits(nodes, s) + AllUnits(nodes, rest)
      ensures SpansWeight(nodes, stack) < Weight(nodes, s.node) + SpansWeight(nodes, rest)
      ensures !(s.a == 0 && s.b == s.units) ==>
        1 + SpansSteps(nodes, stack) == JoinSteps(nodes, s.node, s.a, s.b) + SpansSteps(nodes, rest)
      ensures SpansSize(nodes, stack) == Size(SpanUnits(nodes, s)) + SpansSize(nodes, rest)
    {
      hide Canonical, UnitsIn, Bytes, Content, AllUnits, SpansWeight, Weight, SpanUnits, SpansSteps, SpansSize, Size;
      var left, right := nodes[s.node].left, nodes[s.node].right;
      SpanSplits(nodes, s, lu, ru);
      NoSize();
      if s.a < lu < s.b { SidesSize(nodes, s, lu, ru); }
      SpanFacts(nodes, s);
      WeightOfConcat(nodes, s.node);
      WeightIsPositive(nodes, left);
      WeightIsPositive(nodes, right);
      stack := rest;
      if s.b > lu {
        var part := Span(right, ru, Minus(s.a, lu), s.b - lu);
        SpanPush(nodes, stack, part);
        TallyPush(nodes, stack, part);
        stack := stack + [part];
      }
      if s.a < lu {
        var part := Span(left, lu, s.a, Least(s.b, lu));
        SpanPush(nodes, stack, part);
        TallyPush(nodes, stack, part);
        stack := stack + [part];
      }
    }

    /** Whether `unit_at_tree` reads the unit itself: a walk short enough to a flat piece that
        is plain or short. */
    ghost predicate WalkReads(x: Id, index: nat)
      reads this
      requires Valid() && x < |nodes|
    {
      var p := PlaceOf(nodes, x, index);
      p.steps <= UNIT_WALK_STEPS && (|Units(p.leaf)| == |Str(p.leaf)| || |Str(p.leaf)| <= UNIT_WALK_SCAN)
    }

    /** The walk to a unit is short enough for every unit exactly in trees at most that high,
        and in such trees no slice is too long a walk either. */
    lemma ShortWalksIff(x: Id)
      requires Valid() && x < |nodes| && nodes[x].Concat?
      ensures (forall i | 0 <= i < |Units(x)| :: PlaceOf(nodes, x, i).steps <= UNIT_WALK_STEPS)
         <==> Height(nodes, x) <= UNIT_WALK_STEPS
      ensures Height(nodes, x) <= UNIT_WALK_STEPS ==> forall start, end :: WalkSlices(x, start, end)
    {
      hide Content, SliceSteps, PlaceOf, Height;
      assert LinkedAt(nodes, x);
      var deep := DeepestUnit(nodes, x);
      forall i | 0 <= i < |Units(x)| ensures PlaceOf(nodes, x, i).steps <= Height(nodes, x) {
        PlaceInHeight(nodes, x, i);
      }
      forall start: nat, end: nat | Height(nodes, x) <= UNIT_WALK_STEPS ensures WalkSlices(x, start, end) {
        var e := Least(end, |Units(x)|);
        if start < e { SliceInHeight(nodes, x, start, e); }
      }
    }

    /** `unit_at_tree`: the flat string's unit at `index`, if there is one. It answers exactly
        for concatenations, past the end or where the walk reads the unit. */
    method UnitAtTree(x: Id, index: nat) returns (r: Option<Option<Unit>>)
      requires Valid() && x < |nodes|
      modifies this
      ensures Valid() && Kept(old(nodes), nodes) && |nodes| == |old(nodes)|
      ensures r.Some? ==> var us := old(Units(x));
        r.value == if index < |us| then Some(us[index]) else None
      ensures r.None? <==> !old(nodes)[x].Concat? || (index < |old(Units(x))| && !old(WalkReads(x, index)))
    {
      hide Canonical, UnitsIn, Bytes, Content, SpanIn, SpanUnits;
      if !nodes[x].Concat? { return None; }
      ghost var was, goal := nodes, Units(x);
      var total := Utf16Length(x);
      StillSame(was, x);
      if index >= total { return Some(None); }
      OneUnit(nodes, x, total, index);
      ghost var unit := goal[index];
      var s := Span(x, total, index, index + 1);
      ghost var place := PlaceOf(was, x, index);
      StillSame(was, place.leaf);
      PlaceKept(was, nodes, x, index);
      for walked := 0 to UNIT_WALK_STEPS + 1
        invariant Valid() && Kept(was, nodes) && |nodes| == |was|
        invariant SpanIn(nodes, s) && s.b == s.a + 1 && SpanUnits(nodes, s) == [unit]
        invariant s.node < |nodes| && PlaceOf(nodes, s.node, s.a).(steps := place.steps) == place
        invariant PlaceOf(nodes, s.node, s.a).steps + walked == place.steps
      {
        SpanFacts(nodes, s);
        if !nodes[s.node].Concat? {
          var bytes := FlatBytes(s.node);
          StillSame(was, s.node);
          IsCanonical(s.node);
          assert UnitsIn(bytes.value)[s.a] == unit;
          if s.units == |bytes.value| {
            AsciiText(bytes.value);
            assert bytes.value[s.a] == UnitsIn(bytes.value)[s.a];
            return Some(Some(bytes.value[s.a]));
          }
          if |bytes.value| > UNIT_WALK_SCAN { return None; }
          return Some(Some(UnitsIn(bytes.value)[s.a]));
        }
        ghost var before := nodes;
        var lu, ru := ChildUnits(s.node, s.units);
        SpanKept(before, nodes, s);
        PlaceKept(before, nodes, s.node, s.a);
        StillSame(was, place.leaf);
        SpanSplits(nodes, s, lu, ru);
        s := if s.a < lu then Span(nodes[s.node].left, lu, s.a, s.b)
          else Span(nodes[s.node].right, ru, s.a - lu, s.b - lu);
      }
      return None;
    }

    lemma OneUnit(ns: Nodes, x: Id, total: nat, i: nat)
      requires Linked(ns) && x < |ns| && total == |Content(ns, x)| && i < total
      ensures SpanIn(ns, Span(x, total, i, i + 1)) && SpanUnits(ns, Span(x, total, i, i + 1)) == [Content(ns, x)[i]]
    {
      hide Content;
    }
  }
}
