/** The handle table as the object the engine holds: fields updated in place. Each
    mutating method leaves the state its transition in HeapState or HeapSweeps says. */
module HeapTable {
  import opened Wrappers
  import opened HeapTypes
  import opened HeapState
  import opened HeapSweeps
  import opened HeapInvariants
  import opened NurserySweep

  class Heap {
    var slots: seq<Slot>
    var free: seq<nat>
    var freeTop: nat
    var youngFloor: nat
    var remembered: seq<nat>
    var live: nat
    var counted: nat
    var allocsSinceGc: nat
    var compactGen: nat

    function View(): (s: State)
      reads this
    {
      State(slots, free, freeTop, youngFloor, remembered, live, counted, allocsSinceGc, compactGen)
    }

    constructor ()
      ensures View() == EMPTY && View().Inv()
    {
      slots, free, freeTop, youngFloor, remembered := [], [], 0, 0, [];
      live, counted, allocsSinceGc, compactGen := 0, 0, 0, COMPACT_GEN_BASE;
    }

    // ---- Reading

    function Get(h: Handle): (r: Option<Value>)
      reads this
      ensures r.Some? <==> View().IsLive(h)
      ensures r.Some? ==> r.value == View().At(h)
    {
      if h.index < |slots| && slots[h.index].generation == h.generation
      then slots[h.index].value
      else None
    }

    predicate IsLive(h: Handle)
      reads this
    {
      h.index < |slots| && slots[h.index].value.Some? && slots[h.index].generation == h.generation
    }

    function LiveHandleAt(i: nat): (r: Option<Handle>)
      reads this
      ensures r.Some? ==> i < |slots| && r.value == View().HandleAt(i) && View().IsLive(r.value)
      ensures r.None? ==> i >= |slots| || !slots[i].Live()
    {
      if i < |slots| && slots[i].value.Some? then Some(Handle(i, slots[i].generation)) else None
    }

    /** Where a minor collection traces a remembered object from. */
    function RememberedFrom(i: nat): nat
      reads this
    {
      if i < |slots| && slots[i].dirty.Appended? then slots[i].ScanFrom() else 0
    }

    /** A handle to every live slot, in slot order. */
    method LiveHandles() returns (hs: seq<Handle>)
      ensures forall h :: h in hs <==> View().IsLive(h)
      ensures forall j, k | 0 <= j < k < |hs| :: hs[j].index < hs[k].index
    {
      hs := [];
      for i := 0 to |slots|
        invariant forall h :: h in hs <==> h.index < i && View().IsLive(h)
        invariant forall j, k | 0 <= j < k < |hs| :: hs[j].index < hs[k].index
        invariant forall j | 0 <= j < |hs| :: hs[j].index < i
      {
        if slots[i].value.Some? {
          hs := hs + [Handle(i, slots[i].generation)];
        }
      }
    }

    // ---- Allocation and freeing

    method FoldAllocs()
      requires View().CountOk()
      modifies this
      ensures View() == old(View()).FoldAllocs()
      ensures live == LiveCount(slots)
    {
      live := live + (allocsSinceGc - counted);
      counted := allocsSinceGc;
    }

    method ResetAllocPressure()
      requires View().CountOk()
      modifies this
      ensures View() == old(View()).ResetAllocPressure()
      ensures old(View()).Inv() ==> View().Inv()
    {
      ghost var s := View();
      FoldAllocs();
      allocsSinceGc, counted := 0, 0;
      if s.Inv() { FoldInv(s); }
    }

    method TopUpFree(want: nat)
      modifies this
      ensures View() == old(View()).TopUpFree(want)
    {
      if youngFloor != |slots| { return; }
      var start := |slots|;
      var add := Min(want, if start + 1 <= NO_INDEX then NO_INDEX - (start + 1) else 0);
      if add == 0 { return; }
      slots := slots + Vacant(add);
      free := Downward(start, add) + free;
      freeTop := freeTop + add;
      youngFloor := |slots|;
    }

    method ReserveFree(target: nat)
      modifies this
      ensures View() == old(View()).ReserveFree(target)
      ensures old(View()).Inv() ==> View().Inv()
    {
      ghost var s := View();
      if freeTop == |free| && youngFloor == |slots| {
        TopUpFree(if target >= freeTop then target - freeTop else 0);
      }
      if s.Inv() { ReserveFreeInv(s, target); }
    }

    /** `None` is the source's panic when no slot index is left. */
    method Alloc(v: Value) returns (r: Option<Handle>)
      requires View().TableOk()
      modifies this
      ensures (View(), r) == old(View()).Alloc(v)
      ensures old(View()).Inv() && old(View()).EdgesIssued(v) && r.Some? ==>
        && View().Inv() && !old(View()).Issued(r.value) && View().IsYoung(r.value)
        && View().At(r.value) == v && OthersKept(old(View()), View(), r.value.index)
    {
      hide State.Inv, State.EdgesIssued, State.TableOk, State.BeforeTake, State.Take, OthersKept;
      ghost var s := View();
      BeforeTakeOk(s);
      MakeRoom();
      TakeIsInBounds(View());
      r := TakeSlot(v);
      if s.Inv() && s.EdgesIssued(v) { AllocInv(s, v); }
    }

    lemma TakeIsInBounds(s: State)
      requires s.TableOk()
      ensures s.freeTop <= |s.free| && (s.freeTop > 0 ==> s.free[s.freeTop - 1] < |s.slots|)
    {
    }

    /** Counts the allocation, and tops the free list up if it ran out. */
    method MakeRoom()
      modifies this
      ensures View() == old(View()).BeforeTake()
    {
      allocsSinceGc := allocsSinceGc + 1;
      if freeTop == 0 && youngFloor == |slots| && youngFloor > 0 {
        TopUpFree(Clamp(|slots| / 8, FREE_TOP_UP_MIN, FREE_TOP_UP_MAX));
      }
    }

    /** The next free slot, or a new one. */
    method TakeSlot(v: Value) returns (r: Option<Handle>)
      requires freeTop <= |free| && (freeTop > 0 ==> free[freeTop - 1] < |slots|)
      modifies this
      ensures (View(), r) == old(View()).Take(v)
    {
      if freeTop > 0 {
        freeTop := freeTop - 1;
        var i := free[freeTop];
        r := Some(Handle(i, slots[i].generation));
        slots := slots[i := slots[i].(age := 0, value := Some(v))];
      } else if |slots| < NO_INDEX {
        r := Some(Handle(|slots|, 0));
        slots := slots + [LiveSlot(0, 0, v)];
      } else {
        r := None;
      }
    }

    method Free(h: Handle) returns (r: Option<Value>)
      requires View().CountOk() && freeTop <= |free|
      modifies this
      ensures View() == old(View()).Free(h)
      ensures r == old(Get(h))
      ensures old(View()).Inv() ==> View().Inv() && !View().IsLive(h) && OthersKept(old(View()), View(), h.index)
    {
      ghost var s := View();
      hide State.GraphOk, State.BookOk, State.TableOk;
      r := Get(h);
      FoldAllocs();
      if r.Some? {
        var i := h.index;
        LiveCountPositive(slots, i);
        var wasClean := slots[i].dirty.Clean?;
        var next := slots[i].NextGen();
        slots := slots[i := slots[i].(value := None, generation := next, dirty := Clean)];
        if !wasClean {
          remembered := Without(remembered, i);
        }
        if next < COMPACT_GEN_BASE {
          free := free[..freeTop] + [i] + free[freeTop..];
          freeTop := freeTop + 1;
        }
        live := live - 1;
      }
      if s.Inv() { FreeInv(s, h); }
    }

    // ---- Mutable borrows

    method Remember(i: nat)
      modifies this
      ensures View() == old(View()).Remember(i)
    {
      if i < |slots| && slots[i].value.Some? && slots[i].NothingDue() && slots[i].age >= OLD_AGE {
        if slots[i].dirty.Clean? {
          remembered := remembered + [i];
        }
        slots := slots[i := slots[i].(dirty := Dirty)];
      }
    }

    /** `get_mut`/`peek_mut`, with `v` what the borrower leaves in the slot. */
    method Store(h: Handle, v: Value) returns (found: bool)
      modifies this
      ensures View() == old(View()).Store(h, v)
      ensures found <==> old(View()).IsLive(h)
      ensures old(View()).Inv() && old(View()).EdgesIssued(v) ==>
        View().Inv() && OthersKept(old(View()), View(), h.index) && (found ==> View().IsLive(h) && View().At(h) == v)
    {
      ghost var s := View();
      if s.Inv() && s.EdgesIssued(v) { StoreInv(s, h, v); }
      found := h.index < |slots| && slots[h.index].generation == h.generation && slots[h.index].value.Some?;
      if !found { return; }
      var i := h.index;
      if slots[i].NothingDue() && slots[i].age >= OLD_AGE {
        if slots[i].dirty.Clean? {
          remembered := remembered + [i];
        }
        slots := slots[i := slots[i].(dirty := Dirty)];
      }
      slots := slots[i := slots[i].(value := Some(v))];
    }

    /** `get_mut_append` from position `at`, with `v` what the borrower leaves. */
    method StoreAppended(h: Handle, at: nat, v: Value) returns (found: bool)
      modifies this
      ensures View() == old(View()).Append(h, at, v)
      ensures found <==> old(View()).IsLive(h)
      ensures old(View()).Inv() && old(View()).EdgesIssued(v)
              && (found ==> UnchangedBefore(old(View()).At(h), v, at))
              ==> View().Inv() && OthersKept(old(View()), View(), h.index)
                  && (found ==> View().IsLive(h) && View().At(h) == v)
    {
      ghost var s := View();
      if s.Inv() && s.EdgesIssued(v) && (s.IsLive(h) ==> UnchangedBefore(s.At(h), v, at)) { AppendInv(s, h, at, v); }
      found := h.index < |slots| && slots[h.index].generation == h.generation && slots[h.index].value.Some?;
      if !found { return; }
      var i := h.index;
      if slots[i].NothingDue() && slots[i].age >= OLD_AGE {
        var already := !slots[i].dirty.Clean? && at > slots[i].scanLo + slots[i].scanHi * 0x1_0000;
        if slots[i].dirty.Clean? {
          remembered := remembered + [i];
        }
        if !already {
          if at <= SCAN_MAX {
            slots := slots[i := slots[i].(
              dirty := Appended, scanLo := at % 0x1_0000, scanHi := (at / 0x1_0000) % 0x100)];
          } else {
            slots := slots[i := slots[i].(dirty := Dirty)];
          }
        }
      }
      slots := slots[i := slots[i].(value := Some(v))];
    }

    method Swap(a: Handle, b: Handle)
      modifies this
      ensures View() == old(View()).Swap(a, b)
      ensures old(View()).Inv() ==> View().Inv()
    {
      ghost var s := View();
      if s.Inv() { SwapInv(s, a, b); }
      if a.index == b.index || a.index >= |slots| || b.index >= |slots| { return; }
      var va, vb := Get(a), Get(b);
      if va.Some? && vb.Some? {
        slots := slots[a.index := slots[a.index].(value := vb)][b.index := slots[b.index].(value := va)];
        assert View() == s.Put(a, s.At(b)).Put(b, s.At(a));
        Remember(a.index);
        Remember(b.index);
      }
    }

    method RecordEdge(container: Handle, target: Handle, oldAge: nat)
      modifies this
      ensures View() == old(View()).RecordEdge(container, target, oldAge)
      ensures old(View()).Inv() ==> View().Inv()
    {
      ghost var s := View();
      if s.Inv() { RecordEdgeInv(s, container, target, oldAge); }
      if IsLive(container) && slots[container.index].age >= oldAge
         && IsLive(target) && slots[target.index].age < oldAge {
        Remember(container.index);
      }
    }

    // ---- The collector's own steps

    method PromoteYoung(h: Handle) returns (was: bool)
      modifies `slots
      ensures was <==> old(View()).IsYoung(h)
      ensures View() == if was then old(View()).(slots := old(slots)[h.index := old(slots)[h.index].(age := OLD_AGE)])
                        else old(View())
    {
      was := h.index < |slots| && slots[h.index].value.Some?
             && slots[h.index].generation == h.generation && slots[h.index].age < OLD_AGE;
      if was {
        slots := slots[h.index := slots[h.index].(age := OLD_AGE)];
      }
    }

    method TakeRemembered() returns (r: seq<nat>)
      modifies `remembered
      ensures r == old(remembered) && View() == old(View()).(remembered := [])
    {
      r := remembered;
      remembered := [];
    }

    /** The sweep of a minor collection; `rescanned` is what `TakeRemembered` handed out. */
    method SweepYoung(rescanned: seq<nat>) returns (swept: nat)
      requires Sweepable(View(), rescanned)
      modifies this
      ensures View() == HeapSweeps.SweepYoung(old(View()), rescanned)
      ensures swept == LiveCount(old(slots)) - LiveCount(slots)
    {
      hide State.TableOk, Sweepable, SettleNursery, HeapSweeps.SweepYoung, SettleAll, Rescan, LiveCount, Upward;
      ghost var s := View();
      SweepYoungParts(s, rescanned);
      FoldAllocs();
      RescanTaken(rescanned);
      slots, free, remembered, swept := SweepYoungFast(slots, free, freeTop, youngFloor, remembered);
      live := live - swept;
      freeTop := |free|;
      youngFloor := |slots|;
    }

    /** `SweepYoung` piece by piece. */
    lemma SweepYoungParts(s: State, rescanned: seq<nat>)
      requires Sweepable(s, rescanned)
      ensures s.CountOk() && s.freeTop <= |s.free| && s.youngFloor <= |s.slots|
      ensures forall k | 0 <= k < |s.free| :: s.free[k] < |s.slots|
      ensures forall k | 0 <= k < |rescanned| :: rescanned[k] < |s.slots|
      ensures SettleNursery(s, rescanned) ==
        SettleAll(Progress(Rescan(s.slots, rescanned).0, [], s.remembered + Rescan(s.slots, rescanned).1, 0),
          s.free[s.freeTop..] + Upward(s.youngFloor, |s.slots|))
      ensures var p := SettleNursery(s, rescanned);
        && p.swept == LiveCount(s.slots) - LiveCount(p.slots)
        && HeapSweeps.SweepYoung(s, rescanned) ==
          s.(slots := p.slots, free := s.free[..s.freeTop] + p.back, freeTop := s.freeTop + |p.back|,
             youngFloor := |p.slots|, remembered := p.remembered,
             live := s.live + (s.allocs - s.counted) - p.swept, counted := s.allocs)
    {
      SweptWithinLive(s, rescanned);
      hide SettleAll, Rescan, Upward, LiveCount;
    }

    method RescanTaken(rescanned: seq<nat>)
      requires forall k | 0 <= k < |rescanned| :: rescanned[k] < |slots|
      modifies `slots, `remembered
      ensures slots == Rescan(old(slots), rescanned).0
      ensures remembered == old(remembered) + Rescan(old(slots), rescanned).1
    {
      ghost var was, r := slots, remembered;
      assert rescanned[..0] == [];
      for k := 0 to |rescanned|
        invariant |slots| == |was| && slots == Rescan(was, rescanned[..k]).0
        invariant remembered == r + Rescan(was, rescanned[..k]).1
      {
        assert rescanned[..k + 1][..k] == rescanned[..k];
        var i := rescanned[k];
        if slots[i].value.Some? && slots[i].value.value.InteriorMutable() {
          slots := slots[i := slots[i].(dirty := Sticky)];
          remembered := remembered + [i];
        } else {
          slots := slots[i := slots[i].(dirty := Clean)];
        }
      }
      assert rescanned[..|rescanned|] == rescanned;
    }

    /** The sweep of a full collection: what is outside `keep` is freed where it lies. */
    method Sweep(keep: set<Handle>) returns (swept: nat)
      requires View().TableOk() && View().CountOk()
      modifies this
      ensures View() == HeapSweeps.Sweep(old(View()), keep)
      ensures swept == LiveCount(old(slots)) - LiveCount(slots)
    {
      hide State.TableOk, LiveCount, SweepOne, SweepTo;
      ghost var s := View();
      CanTake(s);
      FoldAllocs();
      ghost var top := free[..freeTop];
      free := free[..freeTop];
      remembered := [];
      swept := 0;
      SweepToNothing(s.slots, top, keep);
      for i := 0 to |slots|
        invariant |slots| == |s.slots|
        invariant Progress(slots, free, remembered, swept) == SweepTo(s.slots, top, keep, i)
        invariant live == LiveCount(slots)
        invariant View() ==
          s.(slots := slots, free := free, remembered := remembered, live := live, counted := s.allocs)
      {
        SweepToNext(s.slots, top, keep, i);
        swept := SweepSlot(i, keep, swept);
      }
      freeTop := |free|;
      youngFloor := |slots|;
    }

    method SweepSlot(i: nat, keep: set<Handle>, swept: nat) returns (swept': nat)
      requires i < |slots| && live == LiveCount(slots)
      modifies `slots, `free, `remembered, `live
      ensures Progress(slots, free, remembered, swept')
           == SweepOne(Progress(old(slots), old(free), old(remembered), swept), i, keep)
      ensures live == LiveCount(slots)
    {
      swept' := swept;
      var slot := slots[i];
      if slot.value.Some? {
        if Handle(i, slot.generation) in keep {
          LiveCountUpdate(slots, i, SurvivingSlot(slot));
          slots := slots[i := slot.(age := if slot.age < MAX_AGE then slot.age + 1 else slot.age,
                                    dirty := if slot.value.value.InteriorMutable() then Sticky else Clean)];
          if slot.value.value.InteriorMutable() {
            remembered := remembered + [i];
          }
        } else {
          LiveCountUpdate(slots, i, slot.Vacated());
          LiveCountPositive(slots, i);
          swept' := swept + 1;
          slots := slots[i := slot.Vacated()];
          if slot.NextGen() < COMPACT_GEN_BASE {
            free := free + [i];
          }
          live := live - 1;
        }
      }
    }

    /** The verification of the generational invariants: the first offence found, as
        (container, young target), the target being the container for an untracked
        young object or an unremembered interior-mutable one. */
    method RememberedViolation() returns (r: Option<(Handle, Handle)>)
      requires freeTop <= |free| && youngFloor <= |slots| && forall k | 0 <= k < |free| :: free[k] < |slots|
      ensures r.None? <==> View().BarrierOk() && View().YoungTracked()
      ensures r.Some? ==> Offends(View(), r.value.0, r.value.1)
    {
      hide State.BarrierAt, Offends;
      ghost var s := View();
      var tracked := Tracked();
      for i := 0 to |slots|
        invariant forall j | 0 <= j < i && s.slots[j].Live() :: s.BarrierAt(j)
        invariant forall j | 0 <= j < i && s.slots[j].Young() :: tracked[j]
      {
        r := SlotViolation(i, tracked[i]);
        if r.Some? {
          OffenceBreaks(s, r.value.0, r.value.1);
          return;
        }
      }
      r := None;
    }

    /** What is wrong with one slot, if anything. */
    method SlotViolation(i: nat, tracked: bool) returns (r: Option<(Handle, Handle)>)
      requires i < |slots| && freeTop <= |free| && (tracked <==> i in free[freeTop..] || youngFloor <= i)
      ensures r.None? ==> (slots[i].Live() ==> View().BarrierAt(i)) && (slots[i].Young() ==> tracked)
      ensures r.Some? ==> Offends(View(), r.value.0, r.value.1)
    {
      var slot := slots[i];
      if slot.value.Some? {
        var h, v := Handle(i, slot.generation), slot.value.value;
        if slot.age < OLD_AGE {
          if !tracked { return Some((h, h)); }
        } else if slot.dirty.Appended? {
          var t := FirstYoung(v.TraceHead(slot.ScanFrom()));
          if t.Some? { return Some((h, t.value)); }
        } else if slot.dirty.Clean? {
          if v.InteriorMutable() { return Some((h, h)); }
          var t := FirstYoung(v.Edges());
          if t.Some? { return Some((h, t.value)); }
        }
      }
      r := None;
    }

    /** The slots the next minor sweep visits. */
    method Tracked() returns (tracked: seq<bool>)
      requires freeTop <= |free| && youngFloor <= |slots| && forall k | 0 <= k < |free| :: free[k] < |slots|
      ensures |tracked| == |slots|
      ensures forall i | 0 <= i < |slots| :: tracked[i] <==> i in free[freeTop..] || youngFloor <= i
    {
      tracked := seq(|slots|, _ => false);
      for k := freeTop to |free|
        invariant |tracked| == |slots|
        invariant forall i | 0 <= i < |slots| :: tracked[i] <==> i in free[freeTop..k]
      {
        assert free[freeTop..k + 1] == free[freeTop..k] + [free[k]];
        tracked := tracked[free[k] := true];
      }
      assert free[freeTop..|free|] == free[freeTop..];
      for t := youngFloor to |slots|
        invariant |tracked| == |slots|
        invariant forall i | 0 <= i < |slots| :: tracked[i] <==> i in free[freeTop..] || youngFloor <= i < t
      {
        tracked := tracked[t := true];
      }
    }

    method FirstYoung(hs: seq<Handle>) returns (r: Option<Handle>)
      ensures r.None? ==> forall h | h in hs :: !View().IsYoung(h)
      ensures r.Some? ==> r.value in hs && View().IsYoung(r.value)
    {
      for k := 0 to |hs|
        invariant forall j | 0 <= j < k :: !View().IsYoung(hs[j])
      {
        var h := hs[k];
        if h.index < |slots| && slots[h.index].value.Some? && slots[h.index].generation == h.generation
           && slots[h.index].age < OLD_AGE {
          return Some(h);
        }
      }
      r := None;
    }
  }

  lemma SweepToNothing(slots: seq<Slot>, top: seq<nat>, keep: set<Handle>)
    ensures SweepTo(slots, top, keep, 0) == Progress(slots, top, [], 0)
  {
  }

  lemma SweepToNext(slots: seq<Slot>, top: seq<nat>, keep: set<Handle>, i: nat)
    requires i < |slots|
    ensures SweepTo(slots, top, keep, i + 1) == SweepOne(SweepTo(slots, top, keep, i), i, keep)
  {
  }

  lemma OffenceBreaks(s: State, c: Handle, t: Handle)
    requires s.freeTop <= |s.free| && Offends(s, c, t)
    ensures !(s.BarrierOk() && s.YoungTracked())
  {
    if s.BarrierOk() { assert s.BarrierAt(c.index); }
  }

  /** `c` breaks the young tracking or the write barrier, through `t`. */
  ghost predicate Offends(s: State, c: Handle, t: Handle)
    requires s.freeTop <= |s.free|
  {
    && s.IsLive(c)
    && var slot := s.slots[c.index];
       if slot.Young() then t == c && c.index < s.youngFloor && c.index !in s.Consumed()
       else if slot.dirty.Appended? then t in s.At(c).TraceHead(slot.ScanFrom()) && s.IsYoung(t)
       else slot.dirty.Clean? && ((t == c && s.At(c).InteriorMutable()) || (t in s.At(c).Edges() && s.IsYoung(t)))
  }
}
