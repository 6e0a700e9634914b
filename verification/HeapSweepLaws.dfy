/** What the sweeps do to each slot, and the state they leave. */
module HeapSweepLaws {
  import opened Wrappers
  import opened HeapTypes
  import opened HeapState
  import opened HeapSweeps
  import opened HeapInvariants

  // ---- One-by-one settling

  /** Listing a slot twice is the same as listing it once: each listed slot meets
      its fate, goes back on the free list at most once, and is remembered at most once. */
  lemma {:induction false} SettleAllOutcome(a: Progress, todo: seq<nat>)
    requires forall k | 0 <= k < |todo| :: todo[k] < |a.slots|
    requires NoDup(a.back) && forall i | i in a.back :: i < |a.slots| && !a.slots[i].Live()
    requires NoDup(a.remembered) && forall i | i in a.remembered :: i < |a.slots| && !Sticks(a.slots[i])
    ensures var r := SettleAll(a, todo);
      && (forall i | 0 <= i < |a.slots| :: r.slots[i] == if i in todo then SettledSlot(a.slots[i]) else a.slots[i])
      && NoDup(r.back) && (forall i :: i in r.back <==> i in a.back || (i in todo && GoesBack(a.slots[i])))
      && NoDup(r.remembered)
      && (forall i :: i in r.remembered <==> i in a.remembered || (i in todo && Sticks(a.slots[i])))
      && |r.back| >= |a.back|
  {
    hide SettledSlot, GoesBack, Sticks;
    if todo != [] {
      var n := |todo| - 1;
      SettleAllOutcome(a, todo[..n]);
      assert todo == todo[..n] + [todo[n]];
      SettledStays();
    }
  }

  /** A settled slot has nothing left to settle. */
  lemma SettledStays()
    ensures forall slot: Slot :: SettledSlot(SettledSlot(slot)) == SettledSlot(slot)
    ensures forall slot: Slot :: !GoesBack(SettledSlot(slot)) && !Sticks(SettledSlot(slot))
    ensures forall slot: Slot :: GoesBack(slot) ==> slot.Live()
  {
  }

  /** The rescanned slots, each listed once, leave the list unless interior-mutable. */
  lemma {:induction false} RescanOutcome(slots: seq<Slot>, todo: seq<nat>)
    requires NoDup(todo) && forall k | 0 <= k < |todo| :: todo[k] < |slots|
    ensures var (ss, rs) := Rescan(slots, todo);
      && (forall i | 0 <= i < |slots| :: ss[i] == if i in todo then RescannedSlot(slots[i]) else slots[i])
      && NoDup(rs)
      && (forall i :: i in rs <==> i in todo && RescannedSlot(slots[i]).dirty.Sticky?)
  {
    if todo != [] {
      var n := |todo| - 1;
      assert NoDup(todo[..n]) && todo[n] !in todo[..n];
      RescanOutcome(slots, todo[..n]);
      assert todo == todo[..n] + [todo[n]];
    }
  }

  // ---- Minor collection as a transition

  /** Marking in a minor collection: the young objects of `k` become old. */
  function Promote(s: State, k: set<Handle>): State {
    s.(slots := seq(|s.slots|, i requires 0 <= i < |s.slots| => PromotedSlot(s.slots[i], s.HandleAt(i) in k)))
  }

  function PromotedSlot(slot: Slot, marked: bool): Slot {
    if slot.Young() && marked then slot.(age := OLD_AGE) else slot
  }

  function MinorCollect(s: State, k: set<Handle>): State
    requires s.BookOk() && s.CountOk()
  {
    PromoteSweepable(s, k);
    SweepYoung(Promote(s, k).(remembered := []), s.remembered)
  }

  lemma PromoteSweepable(s: State, k: set<Handle>)
    requires s.BookOk() && s.CountOk()
    ensures Sweepable(Promote(s, k).(remembered := []), s.remembered)
  {
    var p := Promote(s, k);
    PromoteCount(s.slots, p.slots);
  }

  lemma {:induction false} PromoteCount(a: seq<Slot>, b: seq<Slot>)
    requires |a| == |b| && forall i | 0 <= i < |a| :: a[i].Live() == b[i].Live()
    ensures LiveCount(a) == LiveCount(b)
  {
    if a != [] { PromoteCount(a[..|a| - 1], b[..|b| - 1]); }
  }

  /** A slot after a minor collection. */
  function MinorSlot(slot: Slot, marked: bool): Slot {
    if !slot.Live() then slot
    else if slot.Young() && !marked then slot.Vacated()
    else slot.(age := if slot.Young() then OLD_AGE else slot.age,
               dirty := if slot.value.value.InteriorMutable() then Sticky else Clean)
  }

  /** The sticky marks and the young tracking make the partial rescan complete:
      every slot, visited or not, ends as if the whole table had been settled. */
  lemma MinorSlots(s: State, k: set<Handle>)
    requires s.BookOk() && s.CountOk() && s.StickyOk()
    ensures var t := MinorCollect(s, k);
      && |t.slots| == |s.slots|
      && (forall i | 0 <= i < |s.slots| :: t.slots[i] == MinorSlot(s.slots[i], s.HandleAt(i) in k))
  {
    hide State.CountOk, NoDup;
    NoneTwice();
    PromoteSweepable(s, k);
    var p := Promote(s, k).(remembered := []);
    RescanOutcome(p.slots, s.remembered);
    var (ss, rs) := Rescan(p.slots, s.remembered);
    assert [] + rs == rs;
    SettleAllOutcome(Progress(ss, [], [] + rs, 0), Nursery(p));
  }

  lemma NoneTwice()
    ensures NoDup([])
  {
  }

  predicate FreedForReuse(s: State, k: set<Handle>, i: nat)
    requires i < |s.slots|
  {
    s.slots[i].Young() && s.HandleAt(i) !in k && s.slots[i].NextGen() < COMPACT_GEN_BASE
  }

  /** Each freed slot that is not retired goes back on the free list once; each
      interior-mutable object is remembered once. */
  lemma MinorLists(s: State, k: set<Handle>)
    requires s.BookOk() && s.CountOk() && s.StickyOk()
    ensures var t := MinorCollect(s, k);
      && s.freeTop <= |t.free| && t.free[..s.freeTop] == s.free[..s.freeTop] && t.freeTop == |t.free|
      && NoDup(t.free[s.freeTop..])
      && (forall i: nat :: i in t.free[s.freeTop..] <==> i < |s.slots| && FreedForReuse(s, k, i))
      && NoDup(t.remembered)
      && (forall i: nat :: i in t.remembered <==>
            i < |s.slots| && MinorSlot(s.slots[i], s.HandleAt(i) in k).dirty.Sticky?)
      && t.CountOk()
  {
    MinorListsShape(s, k);
    forall i: nat
      ensures i in MinorCollect(s, k).free[s.freeTop..] <==> i < |s.slots| && FreedForReuse(s, k, i)
      ensures i in MinorCollect(s, k).remembered <==>
        i < |s.slots| && MinorSlot(s.slots[i], s.HandleAt(i) in k).dirty.Sticky?
    {
      MinorListsAt(s, k, i);
    }
  }

  lemma MinorListsShape(s: State, k: set<Handle>)
    requires s.BookOk() && s.CountOk() && s.StickyOk()
    ensures var t := MinorCollect(s, k);
      && s.freeTop <= |t.free| && t.free[..s.freeTop] == s.free[..s.freeTop] && t.freeTop == |t.free|
      && NoDup(t.free[s.freeTop..]) && NoDup(t.remembered) && t.CountOk()
  {
    PromoteSweepable(s, k);
    var p := Promote(s, k).(remembered := []);
    RescanOutcome(p.slots, s.remembered);
    var (ss, rs) := Rescan(p.slots, s.remembered);
    assert [] + rs == rs;
    SettleAllOutcome(Progress(ss, [], [] + rs, 0), Nursery(p));
    SweptWithinLive(p, s.remembered);
    assert MinorCollect(s, k).free == s.free[..s.freeTop] + SettleNursery(p, s.remembered).back;
  }

  /** Which lists the slot `i` is on after a minor collection. */
  lemma MinorListsAt(s: State, k: set<Handle>, i: nat)
    requires s.BookOk() && s.CountOk() && s.StickyOk() && s.freeTop <= |MinorCollect(s, k).free|
    ensures var t := MinorCollect(s, k);
      && (i in t.free[s.freeTop..] <==> i < |s.slots| && FreedForReuse(s, k, i))
      && (i in t.remembered <==> i < |s.slots| && MinorSlot(s.slots[i], s.HandleAt(i) in k).dirty.Sticky?)
  {
    MinorListed(s, k, i);
  }

  /** A slot as the settling of the nursery finds it. */
  function BeforeSettling(s: State, k: set<Handle>, i: nat): Slot
    requires i < |s.slots|
  {
    var slot := PromotedSlot(s.slots[i], s.HandleAt(i) in k);
    if i in s.remembered then RescannedSlot(slot) else slot
  }

  predicate EndsRemembered(s: State, k: set<Handle>, i: nat)
    requires i < |s.slots| && s.freeTop <= |s.free|
  {
    var slot := BeforeSettling(s, k, i);
    || (i in s.remembered && slot.dirty.Sticky?)
    || ((i in s.free[s.freeTop..] || s.youngFloor <= i) && Sticks(slot))
  }

  lemma MinorListed(s: State, k: set<Handle>, i: nat)
    requires s.BookOk() && s.CountOk() && s.freeTop <= |MinorCollect(s, k).free|
    ensures var t := MinorCollect(s, k);
      && (i in t.free[s.freeTop..] <==>
            i < |s.slots| && (i in s.free[s.freeTop..] || s.youngFloor <= i) && GoesBack(BeforeSettling(s, k, i)))
      && (i in t.remembered <==> i < |s.slots| && EndsRemembered(s, k, i))
  {
    hide State.CountOk, NoDup, State.YoungTracked;
    NoneTwice();
    PromoteSweepable(s, k);
    var p := Promote(s, k).(remembered := []);
    RescanOutcome(p.slots, s.remembered);
    var (ss, rs) := Rescan(p.slots, s.remembered);
    assert [] + rs == rs;
    SettleAllOutcome(Progress(ss, [], [] + rs, 0), Nursery(p));
    var back := SettleNursery(p, s.remembered).back;
    assert MinorCollect(s, k).free[s.freeTop..] == back;
    assert i < |s.slots| ==> ss[i] == BeforeSettling(s, k, i);
  }

  /** A free list that keeps its still-free entries and gains the slots just
      emptied is exact again. */
  lemma RefilledTableOk(s: State, t: State, back: seq<nat>)
    requires s.TableOk() && |t.slots| == |s.slots| == t.youngFloor
    requires t.free == s.free[..s.freeTop] + back && t.freeTop == |t.free|
    requires NoDup(back) && forall i: nat | i in back :: i < |s.slots| && s.slots[i].Live()
    requires forall i | 0 <= i < |s.slots| ::
      (t.slots[i].value.None? && t.slots[i].generation < COMPACT_GEN_BASE) <==>
      (i in back || (s.slots[i].value.None? && s.slots[i].generation < COMPACT_GEN_BASE))
    requires forall i | 0 <= i < |s.slots| :: t.slots[i].generation < GEN_MOD && t.slots[i].age <= MAX_AGE
    ensures t.TableOk()
  {
    var top := s.free[..s.freeTop];
    assert t.free[..t.freeTop] == t.free == top + back;
    assert forall j | j in top :: j < |s.slots| && !s.slots[j].Live();
    NoDupConcat(top, back);
    assert forall j | 0 <= j < |t.free| :: t.free[j] in t.free;
  }

  lemma MinorTable(s: State, k: set<Handle>)
    requires s.BookOk() && s.CountOk() && s.StickyOk()
    ensures MinorCollect(s, k).TableOk()
  {
    hide State.RememberedOk, State.YoungTracked, State.CountOk, State.StickyOk, NoDup;
    MinorSlots(s, k);
    MinorLists(s, k);
    var t := MinorCollect(s, k);
    assert t.youngFloor == |t.slots|;
    assert t.free == s.free[..s.freeTop] + t.free[s.freeTop..];
    RefilledTableOk(s, t, t.free[s.freeTop..]);
  }

  /** A list that is exactly the interior-mutable objects, each once and marked so. */
  lemma RememberedForGoodOk(t: State)
    requires NoDup(t.remembered)
    requires forall i: nat :: i in t.remembered <==> i < |t.slots| && RememberedForGood(t.slots[i])
    requires forall i | 0 <= i < |t.slots| ::
      (t.slots[i].dirty != Clean <==> RememberedForGood(t.slots[i])) && (t.slots[i].Live() ==> t.slots[i].Old())
    ensures t.RememberedOk()
  {
    assert forall j | 0 <= j < |t.remembered| :: t.remembered[j] in t.remembered;
  }

  /** The remembered set is exactly the interior-mutable objects, each once. */
  lemma MinorRemembered(s: State, k: set<Handle>)
    requires s.BookOk() && s.CountOk() && s.StickyOk()
    ensures var t := MinorCollect(s, k);
      && |t.slots| == |s.slots| && t.RememberedOk()
      && (forall i: nat :: i in t.remembered <==> i < |t.slots| && RememberedForGood(t.slots[i]))
  {
    MinorSlots(s, k);
    MinorLists(s, k);
    var t := MinorCollect(s, k);
    forall i: nat | i < |t.slots|
      ensures MinorSlot(s.slots[i], s.HandleAt(i) in k).dirty.Sticky? <==> RememberedForGood(t.slots[i])
      ensures t.slots[i].dirty != Clean <==> RememberedForGood(t.slots[i])
      ensures t.slots[i].Live() ==> t.slots[i].Old()
    {
      MinorSlotRemembered(s.slots[i], s.HandleAt(i) in k);
      VacantIsClean(s, i);
    }
    RememberedForGoodOk(t);
  }

  lemma MinorSlotRemembered(slot: Slot, marked: bool)
    requires slot.Live() || slot.dirty == Clean
    ensures var t := MinorSlot(slot, marked);
      && (t.dirty.Sticky? <==> RememberedForGood(t)) && (t.dirty != Clean <==> RememberedForGood(t))
        && (t.Live() ==> t.Old())
  {
  }

  lemma VacantIsClean(s: State, i: nat)
    requires s.BookOk() && i < |s.slots|
    ensures s.slots[i].Live() || s.slots[i].dirty == Clean
  {
  }

  predicate RememberedForGood(slot: Slot) {
    slot.Live() && slot.value.value.InteriorMutable()
  }

  /** After a minor collection nothing is young and the table is exact. */
  lemma MinorBook(s: State, k: set<Handle>)
    requires s.BookOk() && s.CountOk() && s.StickyOk()
    ensures var t := MinorCollect(s, k);
      && t.BookOk() && t.CountOk() && t.freeTop == |t.free| && t.youngFloor == |t.slots|
      && (forall i | 0 <= i < |t.slots| :: !t.slots[i].Young())
  {
    MinorSlots(s, k);
    MinorLists(s, k);
    MinorTable(s, k);
    MinorRemembered(s, k);
    var t := MinorCollect(s, k);
    assert t.youngFloor == |t.slots|;
  }

  // ---- Full sweep

  /** A slot after a full sweep. */
  function FullSlot(slot: Slot, kept: bool): Slot {
    if !slot.Live() then slot else if kept then SurvivingSlot(slot) else slot.Vacated()
  }

  lemma {:induction false} SweepToSlots(slots: seq<Slot>, top: seq<nat>, keep: set<Handle>, n: nat)
    requires n <= |slots|
    ensures var r := SweepTo(slots, top, keep, n);
      && (forall i | 0 <= i < n :: r.slots[i] == FullSlot(slots[i], Handle(i, slots[i].generation) in keep))
      && (n < |slots| ==> r.slots[n] == slots[n])
  {
    hide SweepOne, FullSlot;
    if n > 0 {
      SweepToSlots(slots, top, keep, n - 1);
      SweepOneSlot(SweepTo(slots, top, keep, n - 1), n - 1, keep);
    }
    if n < |slots| { assert SweepTo(slots, top, keep, n).slots[n..][0] == slots[n..][0]; }
  }

  lemma SweepOneSlot(a: Progress, i: nat, keep: set<Handle>)
    requires i < |a.slots|
    ensures SweepOne(a, i, keep).slots == a.slots[i := FullSlot(a.slots[i], Handle(i, a.slots[i].generation) in keep)]
  {
    assert a.slots[i := a.slots[i]] == a.slots;
  }

  /** The pass visits each slot once, in index order. */
  lemma {:induction false} SweepToLists(slots: seq<Slot>, top: seq<nat>, keep: set<Handle>, n: nat)
    requires n <= |slots|
    ensures var r := SweepTo(slots, top, keep, n);
      && r.back == top + Indices(slots, keep, n, true) && r.remembered == Indices(slots, keep, n, false)
  {
    if n > 0 {
      SweepToLists(slots, top, keep, n - 1);
      SweepToSlots(slots, top, keep, n - 1);
      assert top + Indices(slots, keep, n - 1, true) + [n - 1] == top + (Indices(slots, keep, n - 1, true) + [n - 1]);
    }
  }

  /** The indices below `n` whose slot is emptied for reuse (or stays remembered), ascending. */
  function Indices(slots: seq<Slot>, keep: set<Handle>, n: nat, emptied: bool): (r: seq<nat>)
    requires n <= |slots|
    ensures forall i :: i in r <==> 0 <= i < n && (if emptied then Emptied(slots, keep, i) else Stays(slots, keep, i))
    ensures NoDup(r)
  {
    if n == 0 then []
    else
      var r := Indices(slots, keep, n - 1, emptied);
      assert forall k | 0 <= k < |r| :: r[k] in r;
      if if emptied then Emptied(slots, keep, n - 1) else Stays(slots, keep, n - 1) then r + [n - 1] else r
  }

  /** Freed and reusable. */
  predicate Emptied(slots: seq<Slot>, keep: set<Handle>, i: nat)
    requires i < |slots|
  {
    slots[i].Live() && Handle(i, slots[i].generation) !in keep && slots[i].NextGen() < COMPACT_GEN_BASE
  }

  /** Kept and interior-mutable. */
  predicate Stays(slots: seq<Slot>, keep: set<Handle>, i: nat)
    requires i < |slots|
  {
    slots[i].Live() && Handle(i, slots[i].generation) in keep && slots[i].value.value.InteriorMutable()
  }

  lemma FullSlots(s: State, keep: set<Handle>)
    requires s.BookOk() && s.CountOk()
    ensures var t := Sweep(s, keep);
      && |t.slots| == |s.slots| && t.freeTop == |t.free| && t.youngFloor == |t.slots| && t.CountOk()
      && (forall i | 0 <= i < |s.slots| :: t.slots[i] == FullSlot(s.slots[i], s.HandleAt(i) in keep))
      && (forall i | 0 <= i < |t.slots| :: !t.slots[i].Young())
  {
    SweepToSlots(s.slots, s.free[..s.freeTop], keep, |s.slots|);
  }

  lemma FullTable(s: State, keep: set<Handle>)
    requires s.BookOk() && s.CountOk()
    ensures Sweep(s, keep).TableOk()
  {
    hide State.RememberedOk, State.YoungTracked, State.CountOk, NoDup;
    FullSlots(s, keep);
    var back := Indices(s.slots, keep, |s.slots|, true);
    SweepToLists(s.slots, s.free[..s.freeTop], keep, |s.slots|);
    var t := Sweep(s, keep);
    RefilledTableOk(s, t, back);
  }

  lemma FullRemembered(s: State, keep: set<Handle>)
    requires s.BookOk() && s.CountOk()
    ensures var t := Sweep(s, keep);
      && |t.slots| == |s.slots| && t.RememberedOk()
      && (forall i: nat :: i in t.remembered <==> i < |t.slots| && RememberedForGood(t.slots[i]))
  {
    assert s.freeTop <= |s.free|;
    FullSlots(s, keep);
    SweepToLists(s.slots, s.free[..s.freeTop], keep, |s.slots|);
    hide State.RememberedOk, State.YoungTracked, State.CountOk, State.TableOk, NoDup;
    var t := Sweep(s, keep);
    RememberedForGoodOk(t);
  }

  /** After a full sweep nothing is young and the table is exact. */
  lemma FullBook(s: State, keep: set<Handle>)
    requires s.BookOk() && s.CountOk()
    ensures var t := Sweep(s, keep);
      && t.BookOk() && t.CountOk() && t.freeTop == |t.free| && t.youngFloor == |t.slots|
      && (forall i | 0 <= i < |t.slots| :: !t.slots[i].Young())
  {
    FullSlots(s, keep);
    FullTable(s, keep);
    FullRemembered(s, keep);
    var t := Sweep(s, keep);
  }
}
