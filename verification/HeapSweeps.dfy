/** The sweeps as transitions: the one-by-one settling of a minor collection, and
    the full sweep, with what they leave. */
module HeapSweeps {
  import opened HeapTypes
  import opened HeapState

  /** What a sweep has produced so far: the slots, the indices going back on the
      free list (in order), the new remembered list and the number freed. */
  datatype Progress = Progress(slots: seq<Slot>, back: seq<nat>, remembered: seq<nat>, swept: nat)

  /** `lo` up to `hi - 1`. */
  function Upward(lo: nat, hi: nat): (u: seq<nat>)
    requires lo <= hi
    ensures |u| == hi - lo && forall k | 0 <= k < |u| :: u[k] == lo + k
    ensures forall i :: i in u <==> lo <= i < hi
  {
    if lo == hi then [] else Upward(lo, hi - 1) + [hi - 1]
  }

  // ---- Minor sweep

  /** One slot's fate: an unmarked young object is freed, a promoted one stays,
      entering the remembered set if it is interior-mutable. */
  function SettledSlot(slot: Slot): Slot {
    if slot.Young() then slot.Vacated()
    else if Sticks(slot) then slot.(dirty := Sticky)
    else slot
  }

  predicate Sticks(slot: Slot) {
    slot.Old() && slot.dirty.Clean? && slot.value.value.InteriorMutable()
  }

  predicate GoesBack(slot: Slot) { slot.Young() && slot.NextGen() < COMPACT_GEN_BASE }

  function SettleOne(a: Progress, i: nat): Progress
    requires i < |a.slots|
  {
    var slot := a.slots[i];
    Progress(a.slots[i := SettledSlot(slot)],
             if GoesBack(slot) then a.back + [i] else a.back,
             if Sticks(slot) then a.remembered + [i] else a.remembered,
             if slot.Young() then a.swept + 1 else a.swept)
  }

  /** The one-by-one loop over `todo`, first entry first. */
  function SettleAll(a: Progress, todo: seq<nat>): (r: Progress)
    requires forall k | 0 <= k < |todo| :: todo[k] < |a.slots|
    ensures |r.slots| == |a.slots|
  {
    if todo == [] then a
    else SettleOne(SettleAll(a, todo[..|todo| - 1]), todo[|todo| - 1])
  }

  /** A remembered slot after its rescan leaves the list unless interior-mutable. */
  function RescannedSlot(slot: Slot): Slot {
    slot.(dirty := if slot.Live() && slot.value.value.InteriorMutable() then Sticky else Clean)
  }

  function Rescan(slots: seq<Slot>, todo: seq<nat>): (r: (seq<Slot>, seq<nat>))
    requires forall k | 0 <= k < |todo| :: todo[k] < |slots|
    ensures |r.0| == |slots|
  {
    if todo == [] then (slots, [])
    else
      var (ss, rs) := Rescan(slots, todo[..|todo| - 1]);
      var i := todo[|todo| - 1];
      var slot := RescannedSlot(ss[i]);
      (ss[i := slot], if slot.dirty.Sticky? then rs + [i] else rs)
  }

  /** The slots a minor sweep visits, in its order. */
  function Nursery(s: State): (n: seq<nat>)
    requires s.freeTop <= |s.free| && s.youngFloor <= |s.slots|
  {
    s.free[s.freeTop..] + Upward(s.youngFloor, |s.slots|)
  }

  ghost predicate Sweepable(s: State, rescanned: seq<nat>) {
    && s.TableOk() && s.CountOk()
    && (forall k | 0 <= k < |rescanned| :: rescanned[k] < |s.slots|)
  }

  function SettleNursery(s: State, rescanned: seq<nat>): (r: Progress)
    requires s.freeTop <= |s.free| && s.youngFloor <= |s.slots|
    requires forall k | 0 <= k < |s.free| :: s.free[k] < |s.slots|
    requires forall k | 0 <= k < |rescanned| :: rescanned[k] < |s.slots|
    ensures |r.slots| == |s.slots|
  {
    var (ss, rs) := Rescan(s.slots, rescanned);
    SettleAll(Progress(ss, [], s.remembered + rs, 0), Nursery(s))
  }

  /** `sweep_young`: `rescanned` is what `take_remembered` handed out. */
  function SweepYoung(s: State, rescanned: seq<nat>): State
    requires Sweepable(s, rescanned)
  {
    var p := SettleNursery(s, rescanned);
    SweptWithinLive(s, rescanned);
    s.(slots := p.slots, free := s.free[..s.freeTop] + p.back, freeTop := s.freeTop + |p.back|,
       youngFloor := |p.slots|, remembered := p.remembered,
       live := s.live + (s.allocs - s.counted) - p.swept, counted := s.allocs)
  }

  // ---- Full sweep

  function SurvivingSlot(slot: Slot): Slot {
    slot.(age := if slot.age < MAX_AGE then slot.age + 1 else slot.age,
          dirty := if slot.Live() && slot.value.value.InteriorMutable() then Sticky else Clean)
  }

  function SweepOne(a: Progress, i: nat, keep: set<Handle>): Progress
    requires i < |a.slots|
  {
    var slot := a.slots[i];
    if !slot.Live() then a
    else if Handle(i, slot.generation) in keep then
      a.(slots := a.slots[i := SurvivingSlot(slot)],
         remembered := if slot.value.value.InteriorMutable() then a.remembered + [i] else a.remembered)
    else
      a.(slots := a.slots[i := slot.Vacated()], swept := a.swept + 1,
         back := if slot.NextGen() < COMPACT_GEN_BASE then a.back + [i] else a.back)
  }

  /** The pass over the first `n` slots, `top` being the free list's still-free part. */
  function SweepTo(slots: seq<Slot>, top: seq<nat>, keep: set<Handle>, n: nat): (r: Progress)
    requires n <= |slots|
    ensures |r.slots| == |slots| && r.slots[n..] == slots[n..]
    ensures r.swept == LiveCount(slots) - LiveCount(r.slots)
  {
    if n == 0 then Progress(slots, top, [], 0)
    else
      var p := SweepTo(slots, top, keep, n - 1);
      assert p.slots[n - 1] == p.slots[n - 1..][0];
      LiveCountUpdate(p.slots, n - 1, SweepOne(p, n - 1, keep).slots[n - 1]);
      SweepOne(p, n - 1, keep)
  }

  /** `sweep`: every live object outside `keep` is freed, the rest age. */
  function Sweep(s: State, keep: set<Handle>): State
    requires s.TableOk() && s.CountOk()
  {
    var p := SweepTo(s.slots, s.free[..s.freeTop], keep, |s.slots|);
    s.(slots := p.slots, free := p.back, freeTop := |p.back|,
       youngFloor := |p.slots|, remembered := p.remembered,
       live := s.live + (s.allocs - s.counted) - p.swept, counted := s.allocs)
  }

  // ---- Counting

  lemma {:induction false} SettleAllCount(a: Progress, todo: seq<nat>)
    requires forall k | 0 <= k < |todo| :: todo[k] < |a.slots|
    ensures var r := SettleAll(a, todo); r.swept - a.swept == LiveCount(a.slots) - LiveCount(r.slots)
  {
    if todo != [] {
      var n := |todo| - 1;
      SettleAllCount(a, todo[..n]);
      var m := SettleAll(a, todo[..n]);
      LiveCountUpdate(m.slots, todo[n], SettledSlot(m.slots[todo[n]]));
    }
  }

  lemma {:induction false} RescanCount(slots: seq<Slot>, todo: seq<nat>)
    requires forall k | 0 <= k < |todo| :: todo[k] < |slots|
    ensures LiveCount(Rescan(slots, todo).0) == LiveCount(slots)
  {
    if todo != [] {
      var n := |todo| - 1;
      RescanCount(slots, todo[..n]);
      var ss := Rescan(slots, todo[..n]).0;
      LiveCountUpdate(ss, todo[n], RescannedSlot(ss[todo[n]]));
    }
  }

  lemma SweptWithinLive(s: State, rescanned: seq<nat>)
    requires Sweepable(s, rescanned)
    ensures var p := SettleNursery(s, rescanned); p.swept == LiveCount(s.slots) - LiveCount(p.slots)
  {
    RescanCount(s.slots, rescanned);
    SettleAllCount(Progress(Rescan(s.slots, rescanned).0, [], s.remembered + Rescan(s.slots, rescanned).1, 0),
      Nursery(s));
  }
}
