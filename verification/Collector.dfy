/** The collections themselves: minor mark and sweep, and the full cycle. */
module Collector {
  import opened HeapTypes
  import opened HeapState
  import opened HeapSweeps
  import opened HeapSweepLaws
  import opened HeapTable
  import opened Reachability
  import opened CollectionLaws
  import opened Marking

  // ---- Minor marking

  /** The promoted set so far: young objects that must be kept; all but those in `owed`
      have had their young targets promoted too. */
  ghost predicate PromoteInv(s: State, p: Plan, k: set<Handle>, owed: set<Handle>) {
    && (forall h | h in k :: s.IsYoung(h) && MustKeep(s, p, h))
    && (forall h | h in k && h !in owed :: YoungEdgesIn(s, h, k))
  }

  function Elems(hs: seq<Handle>): set<Handle> { set h | h in hs }

  ghost predicate YoungEdgesIn(s: State, h: Handle, k: set<Handle>)
    requires s.IsLive(h)
  {
    forall e | e in s.At(h).Edges() && s.IsYoung(e) :: e in k
  }

  ghost function YoungHandles(s: State): (y: set<Handle>)
    ensures forall h :: h in y <==> s.IsYoung(h)
  {
    LiveHandlesAreLive(s);
    set h | h in LiveHandles(s) && s.IsYoung(h)
  }

  /** Promoting one more young object. */
  lemma PromoteOne(s: State, k: set<Handle>, h: Handle)
    ensures Promote(s, k).IsYoung(h) <==> s.IsYoung(h) && h !in k
    ensures Promote(s, k).IsYoung(h) ==>
      Promote(s, k).slots[h.index := Promote(s, k).slots[h.index].(age := OLD_AGE)] == Promote(s, k + {h}).slots
    ensures Promote(s, k).IsLive(h) <==> s.IsLive(h)
    ensures s.IsLive(h) ==> Promote(s, k).At(h) == s.At(h)
    ensures Promote(s, k).IsOld(h) <==> s.IsOld(h) || (s.IsYoung(h) && h in k)
  {
    if Promote(s, k).IsYoung(h) {
      var a, b :=
        Promote(s, k).slots[h.index := Promote(s, k).slots[h.index].(age := OLD_AGE)], Promote(s, k + {h}).slots;
      forall i | 0 <= i < |a| ensures a[i] == b[i] {
        if i != h.index { assert s.HandleAt(i) != h; }
      }
    }
  }

  lemma PromoteStep(s: State, p: Plan, k: set<Handle>, owed: set<Handle>, h: Handle)
    requires PromoteInv(s, p, k, owed) && s.IsYoung(h) && MustKeep(s, p, h)
    ensures PromoteInv(s, p, k + {h}, owed + {h})
  {
    forall g | g in k + {h} && g !in owed + {h} ensures YoungEdgesIn(s, g, k + {h}) {
      assert YoungEdgesIn(s, g, k);
    }
  }

  /** Promotes `h` and puts it on the worklist if it is still young. */
  method ShadeYoung(heap: Heap, h: Handle, work: seq<Handle>, ghost s: State, ghost p: Plan,
                    ghost k: set<Handle>, ghost owed: set<Handle>)
      returns (work': seq<Handle>, was: bool, ghost k': set<Handle>)
    requires heap.View() == Promote(s, k).(remembered := heap.remembered)
    requires PromoteInv(s, p, k, owed + Elems(work)) && MustKeep(s, p, h)
    modifies heap`slots
    ensures heap.View() == Promote(s, k').(remembered := heap.remembered)
    ensures PromoteInv(s, p, k', owed + Elems(work')) && k <= k' && (s.IsYoung(h) ==> h in k')
    ensures |k'| == |k| + (if was then 1 else 0) && (!was ==> k' == k)
    ensures work' == if was then work + [h] else work
    ensures was ==> h in k'
  {
    PromoteOne(s, k, h);
    if s.IsYoung(h) { PromoteStep(s, p, k, owed + Elems(work), h); }
    assert owed + Elems(work + [h]) == owed + Elems(work) + {h};
    k', work' := k, work;
    was := heap.PromoteYoung(h);
    if was {
      work' := work + [h];
      k' := k + {h};
    }
  }

  /** Promotes every young handle among `hs`. */
  method ShadeAll(heap: Heap, hs: seq<Handle>, work: seq<Handle>, ghost s: State, ghost p: Plan,
                  ghost k: set<Handle>, ghost owed: set<Handle>)
      returns (work': seq<Handle>, marked: nat, ghost k': set<Handle>)
    requires heap.View() == Promote(s, k).(remembered := heap.remembered)
    requires PromoteInv(s, p, k, owed + Elems(work)) && forall h | h in hs :: MustKeep(s, p, h)
    modifies heap`slots
    ensures heap.View() == Promote(s, k').(remembered := heap.remembered)
    ensures PromoteInv(s, p, k', owed + Elems(work')) && k <= k'
    ensures forall h | h in hs && s.IsYoung(h) :: h in k'
    ensures |work'| == |work| + marked && (k' == k ==> work' == work)
    ensures (forall h | h in work :: h in k) ==> (forall h | h in work' :: h in k')
    ensures |k'| == |k| + marked
  {
    hide PromoteInv, MustKeep, Promote, Elems;
    work', marked, k' := work, 0, k;
    for j := 0 to |hs|
      invariant heap.View() == Promote(s, k').(remembered := heap.remembered)
      invariant PromoteInv(s, p, k', owed + Elems(work')) && k <= k'
      invariant forall i | 0 <= i < j && s.IsYoung(hs[i]) :: hs[i] in k'
      invariant |work'| == |work| + marked && (k' == k ==> work' == work)
      invariant (forall h | h in work :: h in k) ==> (forall h | h in work' :: h in k')
      invariant |k'| == |k| + marked
    {
      assert hs[j] in hs;
      var was;
      work', was, k' := ShadeYoung(heap, hs[j], work', s, p, k', owed);
      if was { marked := marked + 1; }
    }
  }

  /** What a minor collection scans of a remembered object. */
  function ScannedEdges(slot: Slot): seq<Handle>
    requires slot.Live()
  {
    var v := slot.value.value;
    (if slot.dirty.Appended? && slot.ScanFrom() > 0 then v.TraceTail(slot.ScanFrom()) else v.Trace()) + v.extra
  }

  ghost predicate OldAreRoots(s: State, p: Plan) {
    forall h | s.IsOld(h) :: h in p.roots
  }

  ghost predicate Within(work: seq<Handle>, k: set<Handle>) {
    forall h | h in work :: h in k
  }

  /** The remembered old objects are scanned like roots' referents. */
  method ScanRemembered(heap: Heap, rescanned: seq<nat>, work: seq<Handle>, ghost s: State, ghost p: Plan,
      ghost k: set<Handle>)
      returns (work': seq<Handle>, marked: nat, ghost k': set<Handle>)
    requires heap.View() == Promote(s, k).(remembered := heap.remembered)
    requires PromoteInv(s, p, k, {} + Elems(work)) && rescanned == s.remembered && s.RememberedOk()
    requires OldAreRoots(s, p)
    requires p.scan
    modifies heap`slots
    ensures heap.View() == Promote(s, k').(remembered := heap.remembered)
    ensures PromoteInv(s, p, k', {} + Elems(work')) && k <= k' && |k'| == |k| + marked
    ensures Within(work, k) ==> Within(work', k')
    ensures AllRescanned(s, s.remembered, k')
  {
    work', marked, k' := work, 0, k;
    assert AllRescanned(s, rescanned[..0], k') by { NoneRescanned(s, k'); }
    for j := 0 to |rescanned|
      invariant heap.View() == Promote(s, k').(remembered := heap.remembered)
      invariant PromoteInv(s, p, k', {} + Elems(work')) && k <= k' && |k'| == |k| + marked
      invariant Within(work, k) ==> Within(work', k')
      invariant AllRescanned(s, rescanned[..j], k')
    {
      ghost var before := k';
      var more;
      work', more, k' := ScanOne(heap, rescanned[j], work', s, p, k');
      marked := marked + more;
      RescannedNext(s, rescanned, j, before, k');
    }
    assert rescanned[..|rescanned|] == rescanned;
  }

  ghost predicate AllRescanned(s: State, indices: seq<nat>, k: set<Handle>) {
    forall i | i in indices :: Rescanned(s, i, k)
  }

  lemma NoneRescanned(s: State, k: set<Handle>)
    ensures AllRescanned(s, [], k)
  {
  }

  lemma RescannedNext(s: State, indices: seq<nat>, j: nat, k: set<Handle>, k': set<Handle>)
    requires j < |indices| && AllRescanned(s, indices[..j], k) && k <= k' && Rescanned(s, indices[j], k')
    ensures AllRescanned(s, indices[..j + 1], k')
  {
    forall i | i in indices[..j + 1] ensures Rescanned(s, i, k') {
      assert i in indices[..j] || i == indices[j];
    }
  }

  /** One remembered object. */
  method ScanOne(heap: Heap, index: nat, work: seq<Handle>, ghost s: State, ghost p: Plan, ghost k: set<Handle>)
      returns (work': seq<Handle>, marked: nat, ghost k': set<Handle>)
    requires heap.View() == Promote(s, k).(remembered := heap.remembered)
    requires PromoteInv(s, p, k, {} + Elems(work)) && index in s.remembered && s.RememberedOk()
    requires OldAreRoots(s, p)
    requires p.scan
    modifies heap`slots
    ensures heap.View() == Promote(s, k').(remembered := heap.remembered)
    ensures PromoteInv(s, p, k', {} + Elems(work')) && k <= k' && |k'| == |k| + marked
    ensures Within(work, k) ==> Within(work', k')
    ensures Rescanned(s, index, k')
  {
    RescanFacts(s, p, k, index);
    var from := heap.RememberedFrom(index);
    var h := heap.LiveHandleAt(index);
    var obj := heap.Get(h.value).value;
    var edges := (if from == 0 then obj.Trace() else obj.TraceTail(from)) + obj.extra;
    work', marked, k' := ShadeAll(heap, edges, work, s, p, k, {});
  }

  lemma RescanFacts(s: State, p: Plan, k: set<Handle>, index: nat)
    requires s.RememberedOk() && index in s.remembered && p.scan && forall h | s.IsOld(h) :: h in p.roots
    ensures index < |s.slots| && s.slots[index].Old()
    ensures var (q, h) := (Promote(s, k), s.HandleAt(index));
      && |q.slots| == |s.slots| && q.slots[index] == s.slots[index]
      && forall e | e in ScannedEdges(s.slots[index]) :: MustKeep(s, p, e)
  {
    assert s.slots[index].Old();
    var from := if s.slots[index].dirty.Appended? then s.slots[index].ScanFrom() else 0;
    OldEdgesMustBeKept(s, p, s.HandleAt(index), from);
  }

  /** The young targets a rescan of slot `i` would find are in `k`. */
  ghost predicate Rescanned(s: State, i: nat, k: set<Handle>) {
    i < |s.slots| && s.slots[i].Live() && forall e | e in ScannedEdges(s.slots[i]) && s.IsYoung(e) :: e in k
  }

  lemma OldEdgesMustBeKept(s: State, p: Plan, h: Handle, from: nat)
    requires s.IsOld(h) && h in p.roots && p.scan
    ensures forall e | e in (if from == 0 then s.At(h).Trace() else s.At(h).TraceTail(from)) + s.At(h).extra ::
      MustKeep(s, p, e)
  {
    assert MustKeep(s, p, h) by { assert forall k | Closed(s, p, k) :: RootsIn(s, p, k); }
    EdgesMustBeKept(s, p, h);
    forall e | e in s.At(h).TraceTail(from) ensures e in s.At(h).Trace() { HeadAndTailCoverTrace(s.At(h), from, e); }
  }

  /** The drain: young objects only, each promoted once. */
  method DrainYoung(heap: Heap, work: seq<Handle>, ghost s: State, ghost p: Plan, ghost k: set<Handle>)
      returns (marked: nat, ghost k': set<Handle>)
    requires heap.View() == Promote(s, k).(remembered := heap.remembered)
    requires PromoteInv(s, p, k, {} + Elems(work)) && p.scan && (forall h | h in work :: h in k)
    modifies heap`slots
    ensures heap.View() == Promote(s, k').(remembered := heap.remembered)
    ensures PromoteInv(s, p, k', {}) && k <= k' && |k'| == |k| + marked
  {
    var grey := work;
    marked, k' := 0, k;
    while grey != []
      invariant heap.View() == Promote(s, k').(remembered := heap.remembered)
      invariant PromoteInv(s, p, k', {} + Elems(grey)) && k <= k' && |k'| == |k| + marked
      invariant forall h | h in grey :: h in k'
      decreases |YoungHandles(s)| - |k'|, |grey|
    {
      ghost var before := k';
      var h := grey[|grey| - 1];
      PopFacts(s, p, k', grey);
      var more;
      grey, more, k' := ShadeAll(heap, heap.Get(h).value.Edges(), grey[..|grey| - 1], s, p, k', {h});
      Settled(s, p, k', Elems(grey), h);
      marked := marked + more;
      SubsetSizes(before, k', YoungHandles(s));
    }
    NothingOwed(s, p, k', grey);
  }

  lemma PopFacts(s: State, p: Plan, k: set<Handle>, grey: seq<Handle>)
    requires grey != [] && PromoteInv(s, p, k, {} + Elems(grey)) && (forall h | h in grey :: h in k)
    ensures var h, rest := grey[|grey| - 1], grey[..|grey| - 1];
      && s.IsYoung(h) && Promote(s, k).IsLive(h) && Promote(s, k).At(h) == s.At(h)
      && (p.scan ==> forall e | e in s.At(h).Edges() :: MustKeep(s, p, e))
      && PromoteInv(s, p, k, {h} + Elems(rest)) && (forall g | g in rest :: g in k)
  {
    var h, rest := grey[|grey| - 1], grey[..|grey| - 1];
    assert h in grey && MustKeep(s, p, h);
    assert grey == rest + [h];
    assert {} + Elems(grey) == {h} + Elems(rest);
    PromoteOne(s, k, h);
    EdgesMustBeKept(s, p, h);
  }

  lemma Settled(s: State, p: Plan, k: set<Handle>, grey: set<Handle>, h: Handle)
    requires PromoteInv(s, p, k, {h} + grey) && s.IsYoung(h)
      && (forall e | e in s.At(h).Edges() && s.IsYoung(e) :: e in k)
    ensures PromoteInv(s, p, k, {} + grey) && k <= YoungHandles(s)
  {
  }

  /** A live key, as a minor collection sees it: an old object or a promoted one. */
  method ExpandMinor(heap: Heap, entries: seq<Entry>) returns (extra: seq<Handle>)
    ensures forall v :: v in extra <==> exists x :: x in entries && heap.View().IsOld(x.key) && x.value == v
  {
    extra := [];
    for i := 0 to |entries|
      invariant forall v :: v in extra <==>
        exists j :: 0 <= j < i && heap.View().IsOld(entries[j].key) && entries[j].value == v
    {
      var key := entries[i].key;
      if heap.IsLive(key) && heap.slots[key.index].age >= OLD_AGE {
        extra := extra + [entries[i].value];
      }
    }
  }

  /** Every entry whose key is old or promoted has its young value promoted. */
  ghost predicate EntriesSettled(s: State, entries: seq<Entry>, k: set<Handle>) {
    forall x | x in entries && (s.IsOld(x.key) || x.key in k) && s.IsYoung(x.value) :: x.value in k
  }

  lemma LiveKeysValues(s: State, p: Plan, k: set<Handle>, owed: set<Handle>, extra: seq<Handle>)
    requires PromoteInv(s, p, k, owed) && forall h | s.IsOld(h) :: h in p.roots
    requires forall v :: v in extra <==> exists x :: x in p.entries && Promote(s, k).IsOld(x.key) && x.value == v
    ensures forall v | v in extra :: MustKeep(s, p, v)
    ensures forall k' | k <= k' && (forall v | v in extra && s.IsYoung(v) :: v in k') && k' == k ::
      EntriesSettled(s, p.entries, k')
  {
    forall v | v in extra ensures MustKeep(s, p, v) {
      var x :| x in p.entries && Promote(s, k).IsOld(x.key) && x.value == v;
      PromoteOne(s, k, x.key);
      forall c | Closed(s, p, c) && s.IsLive(v) ensures v in c {
        assert RootsIn(s, p, c) && EntryIn(s, x, c);
        if x.key in k { assert MustKeep(s, p, x.key); }
      }
    }
    forall x | x in p.entries && (s.IsOld(x.key) || x.key in k) ensures x.value in extra {
      PromoteOne(s, k, x.key);
    }
  }

  /** Nothing owed, roots, remembered objects and entries settled: with the write
      barrier, what was promoted is all that had to be. */
  lemma PromotedIsKept(s: State, roots: seq<Handle>, entries: seq<Entry>, k: set<Handle>)
    requires s.BarrierOk() && s.RememberedOk()
    requires PromoteInv(s, MinorPlan(s, roots, entries), k, {})
    requires forall h | h in roots && s.IsYoung(h) :: h in k
    requires forall i | i in s.remembered :: Rescanned(s, i, k)
    requires EntriesSettled(s, entries, k)
    ensures k + OldHandles(s) == Kept(s, MinorPlan(s, roots, entries))
  {
    var p := MinorPlan(s, roots, entries);
    var all := k + OldHandles(s);
    forall h | h in all && s.IsLive(h) ensures EdgesIn(s, p, h, all) {
      forall e | e in EdgesOf(s.At(h), true) && s.IsLive(e) ensures e in all {
        if s.IsYoung(e) {
          if h in k { assert YoungEdgesIn(s, h, k); }
          else { YoungTargetsPromoted(s, h, e, k); }
        }
      }
    }
    assert Closed(s, p, all);
    forall h | h in all ensures h in Kept(s, p) {
      if h in k { assert MustKeep(s, p, h); } else { assert h in p.roots; }
    }
  }

  /** An old object's young target was found by its rescan, or the barrier rules it out. */
  lemma YoungTargetsPromoted(s: State, h: Handle, e: Handle, k: set<Handle>)
    requires s.BarrierOk() && s.RememberedOk() && s.IsOld(h) && e in s.At(h).Edges() && s.IsYoung(e)
    requires forall i | i in s.remembered :: Rescanned(s, i, k)
    ensures e in k
  {
    assert s.BarrierAt(h.index);
    var slot := s.slots[h.index];
    if !slot.dirty.Clean? {
      assert Rescanned(s, h.index, k);
      HeadAndTailCoverTrace(s.At(h), slot.ScanFrom(), e);
      assert e in ScannedEdges(slot);
    }
  }

  lemma PromoteYoungOnly(s: State, k: set<Handle>)
    ensures Promote(s, k + OldHandles(s)) == Promote(s, k)
  {
    var a, b := Promote(s, k + OldHandles(s)).slots, Promote(s, k).slots;
    forall i | 0 <= i < |s.slots| ensures a[i] == b[i] { assert s.slots[i].Live() ==> s.IsLive(s.HandleAt(i)); }
    assert a == b;
  }

  // ---- The minor collection

  /** One expansion: promotes the young values of live keys. */
  method ShadeYoungValues(heap: Heap, entries: seq<Entry>, ghost s: State, ghost p: Plan, ghost k: set<Handle>)
      returns (work: seq<Handle>, marked: nat, ghost k': set<Handle>)
    requires heap.View() == Promote(s, k).(remembered := heap.remembered)
    requires PromoteInv(s, p, k, {})
    requires p.entries == entries && forall h | s.IsOld(h) :: h in p.roots
    modifies heap`slots
    ensures heap.View() == Promote(s, k').(remembered := heap.remembered)
    ensures PromoteInv(s, p, k', {} + Elems(work)) && k <= k' && |k'| == |k| + |work| && marked == |work|
    ensures forall h | h in work :: h in k'
    ensures work == [] ==> k' == k && EntriesSettled(s, entries, k')
  {
    var extra := ExpandMinor(heap, entries);
    assert forall h :: heap.View().IsOld(h) <==> Promote(s, k).IsOld(h);
    LiveKeysValues(s, p, k, {}, extra);
    assert {} + Elems([]) == {};
    work, marked, k' := ShadeAll(heap, extra, [], s, p, k, {});
    SubsetSizes(k, k', k');
  }

  /** Drains and expands until no entry promotes anything new. */
  method DrainWithEntries(heap: Heap, work: seq<Handle>, entries: seq<Entry>, ghost s: State, ghost p: Plan,
      ghost k: set<Handle>)
      returns (marked: nat, ghost k': set<Handle>)
    requires heap.View() == Promote(s, k).(remembered := heap.remembered)
    requires PromoteInv(s, p, k, {} + Elems(work)) && p.scan && (forall h | h in work :: h in k)
    requires p.entries == entries && forall h | s.IsOld(h) :: h in p.roots
    modifies heap`slots
    ensures heap.View() == Promote(s, k').(remembered := heap.remembered)
    ensures PromoteInv(s, p, k', {}) && k <= k' && |k'| == |k| + marked
    ensures EntriesSettled(s, entries, k')
  {
    var grey := work;
    k', marked := k, 0;
    while true
      invariant heap.View() == Promote(s, k').(remembered := heap.remembered)
      invariant PromoteInv(s, p, k', {} + Elems(grey)) && k <= k' && |k'| == |k| + marked
      invariant forall h | h in grey :: h in k'
      decreases |YoungHandles(s)| - |k'|
    {
      ghost var k0 := k';
      var more;
      more, k' := DrainYoung(heap, grey, s, p, k');
      marked := marked + more;
      grey, more, k' := ShadeYoungValues(heap, entries, s, p, k');
      marked := marked + more;
      if grey == [] {
        NothingOwed(s, p, k', grey);
        break;
      }
      PromotedAreYoung(s, p, k', {} + Elems(grey));
      SubsetSizes(k', k', YoungHandles(s));
    }
  }

  lemma NothingOwed(s: State, p: Plan, k: set<Handle>, work: seq<Handle>)
    requires work == [] && PromoteInv(s, p, k, {} + Elems(work))
    ensures PromoteInv(s, p, k, {})
  {
    assert {} + Elems(work) == {};
  }

  /** The mark half: it promotes exactly the young objects that must be kept, visiting
      only the roots, the remembered objects and what it promotes. */
  method MarkMinor(heap: Heap, roots: seq<Handle>, entries: seq<Entry>) returns (rescanned: seq<nat>, marked: nat)
    requires heap.View().Inv()
    modifies heap`slots, heap`remembered
    ensures rescanned == old(heap.remembered)
    ensures var s := old(heap.View());
      heap.View() == Promote(s, Kept(s, MinorPlan(s, roots, entries))).(remembered := [])
    ensures marked
      == |Kept(old(heap.View()), MinorPlan(old(heap.View()), roots, entries)) - OldHandles(old(heap.View()))|
  {
    hide PromoteInv, MustKeep, State.TableOk, State.YoungTracked, State.RememberedOk, State.BarrierOk, Closed;
    ghost var s := heap.View();
    ghost var p := MinorPlan(s, roots, entries);
    ghost var k: set<Handle> := {};
    forall h | h in roots ensures MustKeep(s, p, h) { RootMustBeKept(s, p, h); }
    NothingPromoted(s, p);
    var work, more;
    work, marked, k := ShadeAll(heap, roots, [], s, p, {}, {});
    rescanned := heap.TakeRemembered();
    work, more, k := ScanRemembered(heap, rescanned, work, s, p, k);
    marked := marked + more;
    more, k := DrainWithEntries(heap, work, entries, s, p, k);
    marked := marked + more;
    PromotedIsKept(s, roots, entries, k);
    PromoteYoungOnly(s, k);
    PromotedAreYoung(s, p, k, {});
    assert k == Kept(s, p) - OldHandles(s);
  }

  lemma NothingPromoted(s: State, p: Plan)
    ensures Promote(s, {}).slots == s.slots && PromoteInv(s, p, {}, {} + Elems([]))
  {
  }

  lemma RootMustBeKept(s: State, p: Plan, h: Handle)
    requires h in p.roots
    ensures MustKeep(s, p, h)
  {
    assert forall k | Closed(s, p, k) :: RootsIn(s, p, k);
  }

  lemma PromotedAreYoung(s: State, p: Plan, k: set<Handle>, owed: set<Handle>)
    requires PromoteInv(s, p, k, owed)
    ensures k <= YoungHandles(s)
  {
  }

  /** A whole minor collection carries out the transition whose soundness
      `CollectionLaws.MinorIsSound` states. */
  method CollectMinor(heap: Heap, roots: seq<Handle>, entries: seq<Entry>) returns (marked: nat, swept: nat)
    requires heap.View().Inv()
    modifies heap
    ensures heap.View() == Minor(old(heap.View()), roots, entries)
    ensures heap.View().Inv()
    ensures Retains(old(heap.View()), heap.View(), Kept(old(heap.View()), MinorPlan(old(heap.View()), roots, entries)))
    ensures heap.View().Len() == old(heap.View().Len()) - swept
  {
    ghost var s := heap.View();
    ghost var k := Kept(s, MinorPlan(s, roots, entries));
    PromoteSweepable(s, k);
    MinorIsSound(s, roots, entries);
    var rescanned;
    rescanned, marked := MarkMinor(heap, roots, entries);
    PromoteCount(s.slots, Promote(s, k).slots);
    swept := heap.SweepYoung(rescanned);
  }

  // ---- The full collection

  /** One stop-the-world major cycle without hooks, or with them. */
  method Collect(heap: Heap, roots: seq<Handle>, entries: seq<Entry>, scan: bool) returns (marked: nat, swept: nat)
    requires heap.View().Inv()
    modifies heap
    ensures heap.View() == Major(old(heap.View()), roots, entries, scan)
    ensures heap.View().Inv()
    ensures Retains(old(heap.View()), heap.View(), Kept(old(heap.View()), FullPlan(roots, entries, scan)))
    ensures heap.View().Len() == old(heap.View().Len()) - swept
  {
    ghost var s := heap.View();
    MajorIsExact(s, roots, entries, scan);
    var m := MarkWithEphemerons(heap, roots, entries, scan);
    marked := m.count;
    var keep := m.Members();
    swept := heap.Sweep(keep);
  }
}
