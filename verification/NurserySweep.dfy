/** The block-moving nursery sweep: it compacts the consumed part of the free list
    run by run instead of entry by entry. */
module NurserySweep {
  import opened Wrappers
  import opened HeapTypes
  import opened HeapState
  import opened HeapSweeps

  datatype Fate = Kept | Freed | Retired

  /** Settles slot `i`, saying what became of it. */
  method SettleYoungFast(slots: seq<Slot>, i: nat, remembered: seq<nat>)
      returns (slots': seq<Slot>, fate: Fate, remembered': seq<nat>)
    requires i < |slots|
    ensures slots' == slots[i := SettledSlot(slots[i])]
    ensures remembered' == if Sticks(slots[i]) then remembered + [i] else remembered
    ensures fate == if GoesBack(slots[i]) then Freed else if slots[i].Young() then Retired else Kept
  {
    slots', remembered' := slots, remembered;
    var slot := slots[i];
    if slot.value.None? {
      assert slots == slots[i := slots[i]];
      return slots', Kept, remembered';
    }
    if slot.age >= OLD_AGE {
      if slot.dirty.Clean? && slot.value.value.InteriorMutable() {
        slots' := slots[i := slot.(dirty := Sticky)];
        remembered' := remembered + [i];
      }
      fate := Kept;
      assert slots' == slots[i := SettledSlot(slots[i])];
      return;
    }
    var next := slot.NextGen();
    slots' := slots[i := slot.(value := None, generation := next, dirty := Clean)];
    fate := if next < COMPACT_GEN_BASE then Freed else Retired;
  }

  /** Settling one more listed slot. */
  lemma SettleAllNext(a: Progress, todo: seq<nat>, r: nat)
    requires r < |todo| && forall k | 0 <= k < |todo| :: todo[k] < |a.slots|
    ensures SettleAll(a, todo[..r + 1]) == SettleOne(SettleAll(a, todo[..r]), todo[r])
    ensures SettleAll(a, todo[..0]) == a
  {
    assert todo[..r + 1][..r] == todo[..r];
  }

  /** `now` is the list `free` read up to entry `r`, with `done` packed at its start, a
      gap of `gap` dead entries after it, and the unread entries in place. */
  ghost predicate Packed(now: seq<nat>, done: seq<nat>, free: seq<nat>, r: nat, gap: nat) {
    && gap <= r <= |free| == |now| && now[..r - gap] == done && now[r..] == free[r..]
  }

  /** `copy_within`, downwards: entry by entry from the first, so an entry is read before the
      block's own start is written over it. */
  method CopyDown(was: seq<nat>, run: nat, r: nat, gap: nat) returns (now: seq<nat>)
    requires 0 < gap <= run <= r <= |was|
    ensures now == was[..run - gap] + was[run..r] + was[r - gap..]
  {
    now := was;
    for k := run to r
      invariant |now| == |was| && now[..run - gap] == was[..run - gap]
      invariant forall j | run - gap <= j < k - gap :: now[j] == was[j + gap]
      invariant forall j | k - gap <= j < |was| :: now[j] == was[j]
    {
      now := now[k - gap := now[k]];
    }
    assert now[run - gap..r - gap] == was[run..r];
    assert now[r - gap..] == was[r - gap..];
    assert now == now[..run - gap] + now[run - gap..r - gap] + now[r - gap..];
  }

  /** Moves a finished run down over the gap: exactly that run gets packed. */
  method CloseGap(was: seq<nat>, run: nat, r: nat, gap: nat, ghost top: seq<nat>, ghost back: seq<nat>,
      ghost free: seq<nat>)
      returns (now: seq<nat>)
    requires Packed(was, top + back, free, run, gap) && run <= r <= |free|
    ensures |now| == |free| && Packed(now, top + (back + free[run..r]), free, r, gap)
    ensures r < |free| ==> Packed(now, top + (back + free[run..r]), free, r + 1, gap + 1)
  {
    now := was;
    if gap > 0 && r > run { now := CopyDown(was, run, r, gap); }
    assert was[run..r] == was[run..][..r - run] == free[run..r];
    assert was[r..] == was[run..][r - run..];
    if gap == 0 { assert was[..r] == was[..run] + was[run..r]; }
    if r < |free| { assert now[r + 1..] == now[r..][1..]; }
    assert top + back + free[run..r] == top + (back + free[run..r]);
  }

  /** The consumed entries `free[freeTop..]`: a run of entries freed again stays
      where it is, or moves down over the gap as one block once it ends. */
  method SettleConsumed(slots: seq<Slot>, free: seq<nat>, freeTop: nat, remembered: seq<nat>)
      returns (slots': seq<Slot>, free': seq<nat>, remembered': seq<nat>, retired: nat)
    requires freeTop <= |free| && forall k | 0 <= k < |free| :: free[k] < |slots|
    ensures var p := SettleAll(Progress(slots, [], remembered, 0), free[freeTop..]);
      && slots' == p.slots && free' == free[..freeTop] + p.back && remembered' == p.remembered
      && p.swept == |p.back| + retired
  {
    hide SettleAll, SettleOne, Packed;
    ghost var a := Progress(slots, [], remembered, 0);
    ghost var todo, top := free[freeTop..], free[..freeTop];
    PackedStart(a, todo, top, free, freeTop);
    retired := 0;
    var n, gap, r := |free|, 0, freeTop;
    slots', free', remembered' := slots, free, remembered;
    ghost var p := a;
    while true
      invariant freeTop <= r <= n && gap <= r - freeTop && |free'| == n
      invariant p == SettleAll(a, todo[..r - freeTop])
      invariant slots' == p.slots && remembered' == p.remembered
      invariant Packed(free', top + p.back, free, r, gap)
      invariant p.swept == |p.back| + retired
      decreases n - r
    {
      var run := r;
      var fate;
      ghost var back := p.back;
      PackedRest(free', top + back, free, r, gap, freeTop);
      slots', r, fate, remembered', p := SettleRun(slots', free', r, remembered', a, todo, freeTop);
      free' := CloseGap(free', run, r, gap, top, back, free);
      if r == n {
        break;
      }
      // `free[r]`, settled by the run's last look, leaves the list.
      if fate == Retired {
        retired := retired + 1;
      }
      gap := gap + 1;
      r := r + 1;
    }
    assert todo[..r - freeTop] == todo;
    PackedAll(free', top + p.back, free, gap);
    free' := free'[..n - gap];
  }

  lemma PackedRest(now: seq<nat>, done: seq<nat>, free: seq<nat>, r: nat, gap: nat, freeTop: nat)
    requires Packed(now, done, free, r, gap) && freeTop <= r
    ensures |now| == |free| && now[r..] == free[freeTop..][r - freeTop..]
    ensures forall k | r <= k <= |now| :: now[r..k] == free[r..k]
  {
    assert forall k | r <= k <= |now| :: now[r..k] == now[r..][..k - r];
    assert forall k | r <= k <= |now| :: free[r..k] == free[r..][..k - r];
  }

  /** Dropping the next entry widens the gap; writing it back does not. */
  lemma PackedEntry(now: seq<nat>, done: seq<nat>, free: seq<nat>, r: nat, gap: nat)
    requires Packed(now, done, free, r, gap) && r < |free|
    ensures now[r] == free[r]
    ensures Packed(now, done, free, r + 1, gap + 1)
    ensures Packed(now[r - gap := free[r]], done + [free[r]], free, r + 1, gap)
  {
    assert now[r..][0] == free[r..][0];
    assert now[r + 1..] == now[r..][1..];
    assert free[r + 1..] == free[r..][1..];
    assert now[r - gap := free[r]][..r + 1 - gap] == now[..r - gap] + [free[r]];
    assert now[r - gap := free[r]][r + 1..] == now[r + 1..];
  }

  lemma PackedAll(now: seq<nat>, done: seq<nat>, free: seq<nat>, gap: nat)
    requires Packed(now, done, free, |free|, gap)
    ensures gap <= |now| == |free| && now[..|now| - gap] == done
  {
  }

  /** The inner loop: settles from entry `r` on, stopping after the first entry that is
      not freed again (`r'`, its slot settled too) or at the end of the list. */
  method SettleRun(slots: seq<Slot>, free: seq<nat>, r: nat, remembered: seq<nat>,
                   ghost a: Progress, ghost todo: seq<nat>, ghost freeTop: nat)
      returns (slots': seq<Slot>, r': nat, fate: Fate, remembered': seq<nat>, ghost p: Progress)
    requires freeTop <= r <= |free| && |todo| == |free| - freeTop
    requires forall k | 0 <= k < |todo| :: todo[k] < |a.slots|
    requires free[r..] == todo[r - freeTop..]
    requires SettleAll(a, todo[..r - freeTop]).slots == slots
    requires SettleAll(a, todo[..r - freeTop]).remembered == remembered
    ensures r <= r' <= |free| && slots' == p.slots && remembered' == p.remembered
    ensures p == SettleAll(a, todo[..(if r' < |free| then r' + 1 else r') - freeTop])
    ensures var start := SettleAll(a, todo[..r - freeTop]);
      && p.back == start.back + free[r..r']
      && p.swept - |p.back| == start.swept - |start.back| + (if r' < |free| && fate == Retired then 1 else 0)
  {
    hide SettleAll, SettleOne, Ran;
    ghost var start := SettleAll(a, todo[..r - freeTop]);
    slots', r', fate, remembered', p := slots, r, Freed, remembered, start;
    RanStart(start, free, r);
    while r' < |free|
      invariant r <= r' <= |free|
      invariant p == SettleAll(a, todo[..r' - freeTop])
      invariant slots' == p.slots && remembered' == p.remembered
      invariant Ran(p, start, free, r, r')
    {
      SameEntry(free, r, todo, freeTop, r');
      slots', fate, remembered' := SettleYoungFast(slots', free[r'], remembered');
      SettleAllNext(a, todo, r' - freeTop);
      RanNext(p, start, free, r, r', fate);
      p := SettleOne(p, free[r']);
      if fate != Freed {
        return;
      }
      r' := r' + 1;
    }
    RanAll(p, start, free, r);
  }

  /** Entries `r` to `r'` were all freed again. */
  ghost predicate Ran(p: Progress, start: Progress, free: seq<nat>, r: nat, r': nat)
    requires r <= r' <= |free|
  {
    p.back == start.back + free[r..r'] && p.swept == start.swept + (r' - r)
  }

  lemma RanStart(start: Progress, free: seq<nat>, r: nat)
    requires r <= |free|
    ensures Ran(start, start, free, r, r)
  {
  }

  lemma RanAll(p: Progress, start: Progress, free: seq<nat>, r: nat)
    requires r <= |free| && Ran(p, start, free, r, |free|)
    ensures p.back == start.back + free[r..|free|] && p.swept - |p.back| == start.swept - |start.back|
  {
  }

  lemma SameEntry(free: seq<nat>, r: nat, todo: seq<nat>, freeTop: nat, k: nat)
    requires freeTop <= r <= k < |free| && |todo| == |free| - freeTop && free[r..] == todo[r - freeTop..]
    ensures free[k] == todo[k - freeTop]
  {
    assert free[k] == free[r..][k - r] == todo[r - freeTop..][k - r];
  }

  /** One more entry: the run goes on, or ends with this one settled too. */
  lemma RanNext(p: Progress, start: Progress, free: seq<nat>, r: nat, r': nat, fate: Fate)
    requires r <= r' < |free| && Ran(p, start, free, r, r') && free[r'] < |p.slots|
    requires var slot := p.slots[free[r']];
      fate == if GoesBack(slot) then Freed else if slot.Young() then Retired else Kept
    ensures var q := SettleOne(p, free[r']);
      && (fate == Freed ==> Ran(q, start, free, r, r' + 1))
      && (fate != Freed ==> q.back == start.back + free[r..r'])
      && (fate != Freed ==> q.swept - |q.back| == start.swept - |start.back| + (if fate == Retired then 1 else 0))
      && q.slots == p.slots[free[r'] := SettledSlot(p.slots[free[r']])]
      && q.remembered == (if Sticks(p.slots[free[r']]) then p.remembered + [free[r']] else p.remembered)
  {
    assert free[r..r' + 1] == free[r..r'] + [free[r']];
  }

  /** The slots pushed since the last collection, from `floor` on. */
  method SettlePushed(slots: seq<Slot>, free: seq<nat>, floor: nat, remembered: seq<nat>, before: nat,
                      ghost a: Progress, ghost todo: seq<nat>, ghost top: seq<nat>)
      returns (slots': seq<Slot>, free': seq<nat>, remembered': seq<nat>, retired: nat)
    requires floor <= |slots| && forall k | 0 <= k < |todo| :: todo[k] < |a.slots|
    requires var p := SettleAll(a, todo);
      && slots == p.slots && remembered == p.remembered && free == top + p.back
      && p.swept == |p.back| + before
    ensures var q := SettleAll(a, todo + Upward(floor, |slots|));
      && slots' == q.slots && remembered' == q.remembered && free' == top + q.back
      && q.swept == |q.back| + retired
  {
    hide SettleAll, SettleOne, Upward;
    ghost var q := SettleAll(a, todo);
    slots', free', remembered', retired := slots, free, remembered, before;
    UpwardNothing(todo, floor);
    for i := floor to |slots|
      invariant q == SettleAll(a, todo + Upward(floor, i)) && |slots'| == |slots|
      invariant slots' == q.slots && remembered' == q.remembered && free' == top + q.back
      invariant q.swept == |q.back| + retired
    {
      var fate;
      SettleAllUpTo(a, todo, floor, i);
      SettleOneParts(q, i);
      q := SettleOne(q, i);
      slots', fate, remembered' := SettleYoungFast(slots', i, remembered');
      match fate
      case Kept =>
      case Freed => free' := free' + [i];
      case Retired => retired := retired + 1;
    }
  }

  lemma UpwardNothing(todo: seq<nat>, floor: nat)
    ensures todo + Upward(floor, floor) == todo
  {
  }

  lemma SettleAllUpTo(a: Progress, todo: seq<nat>, floor: nat, i: nat)
    requires floor <= i < |a.slots| && forall k | 0 <= k < |todo| :: todo[k] < |a.slots|
    ensures SettleAll(a, todo + Upward(floor, i + 1)) == SettleOne(SettleAll(a, todo + Upward(floor, i)), i)
  {
    assert (todo + Upward(floor, i + 1))[..|todo| + (i - floor)] == todo + Upward(floor, i);
  }

  /** The block-moving sweep settles exactly as the one-by-one loop does: same slots,
      same free list in the same order, same remembered list, same count. */
  method SweepYoungFast(slots: seq<Slot>, free: seq<nat>, freeTop: nat, floor: nat, remembered: seq<nat>)
      returns (slots': seq<Slot>, free': seq<nat>, remembered': seq<nat>, swept: nat)
    requires freeTop <= |free| && floor <= |slots|
    requires forall k | 0 <= k < |free| :: free[k] < |slots|
    ensures var p := SettleAll(Progress(slots, [], remembered, 0), free[freeTop..] + Upward(floor, |slots|));
      slots' == p.slots && free' == free[..freeTop] + p.back && remembered' == p.remembered && swept == p.swept
  {
    ghost var a := Progress(slots, [], remembered, 0);
    var retired;
    slots', free', remembered', retired := SettleConsumed(slots, free, freeTop, remembered);
    slots', free', remembered', retired :=
      SettlePushed(slots', free', floor, remembered', retired, a, free[freeTop..], free[..freeTop]);
    swept := |free'| - freeTop + retired;
  }

  /** The loop that settles entry by entry, writing each one freed again back over
      the consumed part of the list (as verification mode walks it, poisoning aside). */
  method SettleConsumedOneByOne(slots: seq<Slot>, free: seq<nat>, freeTop: nat, remembered: seq<nat>)
      returns (slots': seq<Slot>, free': seq<nat>, remembered': seq<nat>, swept: nat)
    requires freeTop <= |free| && forall k | 0 <= k < |free| :: free[k] < |slots|
    ensures var p := SettleAll(Progress(slots, [], remembered, 0), free[freeTop..]);
      slots' == p.slots && free' == free[..freeTop] + p.back && remembered' == p.remembered && swept == p.swept
  {
    hide SettleAll, SettleOne, Packed;
    ghost var a := Progress(slots, [], remembered, 0);
    ghost var todo, top := free[freeTop..], free[..freeTop];
    ghost var p := a;
    slots', free', remembered', swept := slots, free, remembered, 0;
    PackedStart(a, todo, top, free, freeTop);
    var kept := freeTop;
    for r := freeTop to |free|
      invariant freeTop <= kept <= r && |free'| == |free|
      invariant p == SettleAll(a, todo[..r - freeTop])
      invariant slots' == p.slots && remembered' == p.remembered && swept == p.swept
      invariant Packed(free', top + p.back, free, r, r - kept)
    {
      var fate;
      PackedEntry(free', top + p.back, free, r, r - kept);
      SettleAllNext(a, todo, r - freeTop);
      assert todo[r - freeTop] == free[r];
      SettleOneParts(p, free[r]);
      slots', fate, remembered' := SettleYoungFast(slots', free'[r], remembered');
      ghost var back := p.back;
      p := SettleOne(p, free[r]);
      if fate != Kept { swept := swept + 1; }
      if fate == Freed {
        free' := free'[kept := free'[r]];
        assert top + p.back == top + back + [free[r]];
        kept := kept + 1;
      }
    }
    assert todo[..|free| - freeTop] == todo;
    PackedAll(free', top + p.back, free, |free| - kept);
    free' := free'[..kept];
  }

  lemma PackedStart(a: Progress, todo: seq<nat>, top: seq<nat>, free: seq<nat>, freeTop: nat)
    requires freeTop <= |free| && top == free[..freeTop] && a.back == []
      && forall k | 0 <= k < |todo| :: todo[k] < |a.slots|
    ensures SettleAll(a, todo[..0]) == a && Packed(free, top + a.back, free, freeTop, 0)
  {
    assert top + [] == top;
  }

  lemma SettleOneParts(p: Progress, i: nat)
    requires i < |p.slots|
    ensures var q, slot := SettleOne(p, i), p.slots[i];
      && q.slots == p.slots[i := SettledSlot(slot)]
      && q.back == (if GoesBack(slot) then p.back + [i] else p.back)
      && q.remembered == (if Sticks(slot) then p.remembered + [i] else p.remembered)
      && q.swept == (if slot.Young() then p.swept + 1 else p.swept)
      && (GoesBack(slot) ==> slot.Young())
  {
  }
}
