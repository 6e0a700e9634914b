/** The moving collection carried out on the heap object. */
module Compactor {
  import opened HeapTypes
  import opened HeapState
  import opened HeapTable
  import opened Reachability
  import opened CollectionLaws
  import opened Marking
  import opened Compaction

  /** Moves the kept objects to the front, returning the forwarding pairs. */
  method MoveKept(heap: Heap, keep: set<Handle>) returns (pairs: seq<(Handle, Handle)>)
    modifies heap
    ensures heap.View() == CompactTo(old(heap.View()), keep)
    ensures pairs == PackTo(old(heap.slots), keep, old(heap.compactGen), |old(heap.slots)|).pairs
  {
    var newGen := heap.compactGen;
    heap.compactGen := NextCompactGen(heap.compactGen);
    var oldSlots := heap.slots;
    heap.free := [];
    heap.remembered := [];
    var newSlots: seq<Slot>;
    newSlots, pairs := [], [];
    for i := 0 to |oldSlots|
      invariant Packing(newSlots, pairs) == PackTo(oldSlots, keep, newGen, i)
    {
      var slot := oldSlots[i];
      if slot.value.Some? && Handle(i, slot.generation) in keep {
        var moved := Handle(|newSlots|, newGen);
        newSlots := newSlots + [LiveSlot(newGen, slot.age, slot.value.value)];
        pairs := pairs + [(Handle(i, slot.generation), moved)];
      }
    }
    heap.slots := newSlots;
    heap.live := |newSlots|;
    heap.counted := heap.allocsSinceGc;
    heap.freeTop, heap.youngFloor := 0, 0;
    for i := 0 to |newSlots|
      invariant (heap.slots, heap.remembered) == MarkOld(newSlots, i)
      invariant heap.View() == State(heap.slots, [], 0, 0, heap.remembered, |newSlots|, heap.allocsSinceGc,
                                     heap.allocsSinceGc, heap.compactGen)
      invariant heap.allocsSinceGc == old(heap.allocsSinceGc) && heap.compactGen == NextCompactGen(newGen)
    {
      if heap.slots[i].age >= OLD_AGE {
        heap.slots := heap.slots[i := heap.slots[i].(dirty := Dirty)];
        heap.remembered := heap.remembered + [i];
      }
    }
  }

  function Look(forward: map<Handle, Handle>, h: Handle): Handle {
    if h in forward then forward[h] else h
  }

  /** The pairs as a lookup table send every handle where `Forward` says. */
  method Table(pairs: seq<(Handle, Handle)>, ghost s: State, ghost keep: set<Handle>)
      returns (forward: map<Handle, Handle>)
    requires pairs == PackTo(s.slots, keep, s.compactGen, |s.slots|).pairs
    ensures forall h :: Look(forward, h) == Forward(s, keep, h)
  {
    forward := map[];
    PackToPlaces(s.slots, keep, s.compactGen, |s.slots|);
    for i := 0 to |pairs|
      invariant forall j | 0 <= j < i :: pairs[j].0 in forward
      invariant forall h | h in forward :: s.IsLive(h) && h in keep && forward[h] == Forward(s, keep, h)
    {
      assert KeptAt(s.slots, keep, pairs[i].0.index);
      forward := forward[pairs[i].0 := pairs[i].1];
    }
    forall h ensures Look(forward, h) == Forward(s, keep, h) {
      if s.IsLive(h) && h in keep {
        assert KeptAt(s.slots, keep, h.index);
        RankGrows(s.slots, keep, h.index, |s.slots|);
        assert pairs[Rank(s.slots, keep, h.index)].0 == h;
      }
    }
  }

  /** One object's outgoing handles rewritten. */
  method RelocateValue(v: Value, forward: map<Handle, Handle>, ghost s: State, ghost keep: set<Handle>)
      returns (w: Value)
    requires forall h :: Look(forward, h) == Forward(s, keep, h)
    ensures w == Relocated(s, keep, v)
  {
    w := v.(words := seq(|v.words|, i requires 0 <= i < |v.words| =>
                           match v.words[i] case Prim(b) => Prim(b) case Ref(h) => Ref(Look(forward, h))),
            extra := seq(|v.extra|, i requires 0 <= i < |v.extra| => Look(forward, v.extra[i])));
    assert w.words == Relocated(s, keep, v).words;
  }

  /** Rewrites every live object through the forwarding, by the ordinary mutable borrow. */
  method Relocate(heap: Heap, forward: map<Handle, Handle>, ghost s: State, ghost keep: set<Handle>)
    requires forall h :: Look(forward, h) == Forward(s, keep, h)
    modifies heap
    ensures heap.View() == RelocateTo(s, keep, old(heap.View()), |old(heap.slots)|)
  {
    ghost var t := heap.View();
    for i := 0 to |heap.slots|
      invariant |heap.slots| == |t.slots| && heap.View() == RelocateTo(s, keep, t, i)
    {
      var h := heap.LiveHandleAt(i);
      if h.Some? {
        var w := RelocateValue(heap.Get(h.value).value, forward, s, keep);
        var found := heap.Store(h.value, w);
      }
    }
  }

  /** A whole moving collection; the roots come back rewritten. */
  method CompactWith(heap: Heap, roots: seq<Handle>) returns (roots': seq<Handle>, forward: map<Handle, Handle>)
    modifies heap
    ensures var s := old(heap.View()); var k := Kept(s, FullPlan(roots, [], false));
      && heap.View() == Compact(s, k) && roots' == ForwardEach(s, k, roots)
      && (forall h :: Look(forward, h) == Forward(s, k, h))
  {
    ghost var s := heap.View();
    var marked := MarkWithEphemerons(heap, roots, [], false);
    var keep := marked.Members();
    var pairs := MoveKept(heap, keep);
    forward := Table(pairs, s, keep);
    Relocate(heap, forward, s, keep);
    roots' := seq(|roots|, i requires 0 <= i < |roots| => Look(forward, roots[i]));
    assert roots' == ForwardEach(s, keep, roots);
  }
}
