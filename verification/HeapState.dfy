/** The state of the handle table as a value, its transitions, and the invariants
    every reachable state keeps. `Heap` (HeapTable.dfy) is the object whose methods
    carry these transitions out in place. */
module HeapState {
  import opened Wrappers
  import opened HeapTypes

  datatype State = State(slots: seq<Slot>, free: seq<nat>, freeTop: nat, youngFloor: nat,
                         remembered: seq<nat>, live: nat, counted: nat, allocs: nat,
                         compactGen: nat)
  {
    // ---- Reading

    predicate IsLive(h: Handle) {
      h.index < |slots| && slots[h.index].Live() && slots[h.index].generation == h.generation
    }

    predicate IsYoung(h: Handle) { IsLive(h) && slots[h.index].age < OLD_AGE }

    predicate IsOld(h: Handle) { IsLive(h) && slots[h.index].age >= OLD_AGE }

    /** The value behind a live handle. */
    function At(h: Handle): Value
      requires IsLive(h)
    {
      slots[h.index].value.value
    }

    /** The handle of the object in slot `i`. */
    function HandleAt(i: nat): Handle
      requires i < |slots|
    {
      Handle(i, slots[i].generation)
    }

    /** The free-list entries handed out since the last collection. */
    function Consumed(): seq<nat>
      requires freeTop <= |free|
    {
      free[freeTop..]
    }

    /** The number of live objects, as the heap reports it. */
    function Len(): int { live + (allocs - counted) }

    // ---- Invariants

    /** `free[..freeTop]` lists each vacant non-retired slot exactly once. */
    ghost predicate TableOk() {
      && freeTop <= |free| && youngFloor <= |slots| <= NO_INDEX
      && (forall k | 0 <= k < |free| :: free[k] < |slots|)
      && NoDup(free[..freeTop])
      && (forall i | 0 <= i < |slots| ::
            i in free[..freeTop] <==> slots[i].value.None? && slots[i].generation < COMPACT_GEN_BASE)
      && (forall i | 0 <= i < |slots| :: slots[i].generation < GEN_MOD && slots[i].age <= MAX_AGE)
    }

    /** Every young object is in a slot the next minor sweep visits. */
    ghost predicate YoungTracked()
      requires freeTop <= |free|
    {
      forall i | 0 <= i < |slots| :: slots[i].Young() ==> i >= youngFloor || i in free[freeTop..]
    }

    /** The remembered list holds each non-clean slot once, and only old objects. */
    ghost predicate RememberedOk() {
      && NoDup(remembered)
      && (forall k | 0 <= k < |remembered| :: remembered[k] < |slots|)
      && (forall i | 0 <= i < |slots| :: i in remembered <==> slots[i].dirty != Clean)
      && (forall i | 0 <= i < |slots| :: slots[i].dirty != Clean ==> slots[i].Old())
    }

    /** `Len` counts the live slots. */
    ghost predicate CountOk() {
      counted <= allocs && Len() == LiveCount(slots)
    }

    /** The write barrier: a clean old object is not interior-mutable and has no
        edge to a young one; one only appended to has none before its scan position. */
    ghost predicate BarrierAt(i: nat)
      requires i < |slots| && slots[i].Live()
    {
      slots[i].age >= OLD_AGE ==>
        var v := slots[i].value.value;
        && (slots[i].dirty == Clean ==>
              !v.InteriorMutable() && forall e | e in v.Edges() :: !IsYoung(e))
        && (slots[i].dirty == Appended ==>
              forall e | e in v.TraceHead(slots[i].ScanFrom()) :: !IsYoung(e))
    }

    ghost predicate BarrierOk() {
      forall i | 0 <= i < |slots| && slots[i].Live() :: BarrierAt(i)
    }

    /** The barrier's part about single objects: an interior-mutable one, once old, is
        remembered. */
    ghost predicate StickyOk() {
      forall i | 0 <= i < |slots| && slots[i].Old() && slots[i].dirty == Clean ::
        !slots[i].value.value.InteriorMutable()
    }

    /** A live object's generation is a low one, or the last compaction's. */
    ghost predicate GenerationsOk() {
      && COMPACT_GEN_BASE <= compactGen < GEN_MOD
      && forall i | 0 <= i < |slots| && slots[i].Live() ::
           slots[i].generation < COMPACT_GEN_BASE || NextCompactGen(slots[i].generation) == compactGen
    }

    /** A handle no allocation before the next compaction will return: an earlier one
        already has, a compaction made it, or none can. */
    predicate Issued(h: Handle) {
      h.index < |slots| && !slots[h.index].Coming(h.generation)
    }

    /** No object holds a handle that is yet to be handed out. */
    ghost predicate NoForged() {
      forall i | 0 <= i < |slots| && slots[i].Live() :: EdgesIssued(slots[i].value.value)
    }

    ghost predicate EdgesIssued(v: Value) {
      forall e | e in v.Edges() :: Issued(e)
    }

    /** Every edge of every object leads to a live object. */
    ghost predicate NoDangling() {
      forall i | 0 <= i < |slots| && slots[i].Live() :: EdgesLive(slots[i].value.value)
    }

    ghost predicate EdgesLive(v: Value) {
      forall e | e in v.Edges() :: IsLive(e)
    }

    /** The slot table's own bookkeeping. */
    ghost predicate BookOk() {
      TableOk() && YoungTracked() && RememberedOk()
    }

    /** What the objects and their edges satisfy. */
    ghost predicate GraphOk() {
      BarrierOk() && GenerationsOk() && NoForged()
    }

    /** What every reachable state satisfies. */
    ghost predicate Inv() {
      BookOk() && CountOk() && GraphOk()
    }

    // ---- Transitions

    /** The fields `fold_allocs` updates. */
    function FoldAllocs(): State
      requires counted <= allocs
    {
      this.(live := live + (allocs - counted), counted := allocs)
    }

    function ResetAllocPressure(): State
      requires counted <= allocs
    {
      FoldAllocs().(allocs := 0, counted := 0)
    }

    function TopUpFree(want: nat): State {
      var start := |slots|;
      var add := Min(want, if start + 1 <= NO_INDEX then NO_INDEX - (start + 1) else 0);
      if youngFloor != start || add == 0 then this
      else this.(slots := slots + Vacant(add),
                 free := Downward(start, add) + free,
                 freeTop := freeTop + add,
                 youngFloor := start + add)
    }

    function ReserveFree(target: nat): State {
      if freeTop != |free| || youngFloor != |slots| then this
      else TopUpFree(if target >= freeTop then target - freeTop else 0)
    }

    /** `alloc` before it takes a slot. */
    function BeforeTake(): State {
      var s := this.(allocs := allocs + 1);
      if freeTop == 0 && youngFloor == |slots| && youngFloor > 0
      then s.TopUpFree(Clamp(|slots| / 8, FREE_TOP_UP_MIN, FREE_TOP_UP_MAX))
      else s
    }

    /** `None` is the source's "heap slot space exhausted" panic. */
    function Take(v: Value): (State, Option<Handle>)
      requires freeTop <= |free| && (freeTop > 0 ==> free[freeTop - 1] < |slots|)
    {
      if freeTop > 0 then
        var i := free[freeTop - 1];
        (this.(freeTop := freeTop - 1,
               slots := slots[i := slots[i].(age := 0, value := Some(v))]),
         Some(HandleAt(i)))
      else if |slots| < NO_INDEX then
        (this.(slots := slots + [LiveSlot(0, 0, v)]), Some(Handle(|slots|, 0)))
      else (this, None)
    }

    function Alloc(v: Value): (State, Option<Handle>)
      requires TableOk()
    {
      BeforeTakeOk(this);
      BeforeTake().Take(v)
    }

    /** The barrier of a mutable borrow of slot `i`. */
    function Remember(i: nat): State {
      if i < |slots| && slots[i].NothingDue() && slots[i].Old() then
        this.(remembered := if slots[i].dirty.Clean? then remembered + [i] else remembered,
              slots := slots[i := slots[i].(dirty := Dirty)])
      else this
    }

    /** The barrier of a borrow that only appends from position `at` on. */
    function RememberFrom(i: nat, at: nat): State {
      if i < |slots| && slots[i].NothingDue() && slots[i].Old()
         && (slots[i].dirty.Clean? || at <= slots[i].ScanFrom())
      then
        this.(remembered := if slots[i].dirty.Clean? then remembered + [i] else remembered,
              slots := slots[i := if at <= SCAN_MAX then slots[i].(dirty := Appended).SetScan(at)
                                  else slots[i].(dirty := Dirty)])
      else this
    }

    function Put(h: Handle, v: Value): State
      requires IsLive(h)
    {
      this.(slots := slots[h.index := slots[h.index].(value := Some(v))])
    }

    /** A mutable borrow of `h` through which `v` is stored. */
    function Store(h: Handle, v: Value): State {
      if IsLive(h) then Remember(h.index).Put(h, v) else this
    }

    /** An appending borrow of `h` from position `at`, storing `v`. */
    function Append(h: Handle, at: nat, v: Value): State {
      if IsLive(h) then RememberFrom(h.index, at).Put(h, v) else this
    }

    /** An interior-mutable object changing behind the heap's back. */
    function Inside(h: Handle, v: Value): State {
      if IsLive(h) && At(h).InteriorMutable() && v.InteriorMutable() then Put(h, v) else this
    }

    function Swap(a: Handle, b: Handle): State {
      if a.index != b.index && IsLive(a) && IsLive(b)
      then Put(a, At(b)).Put(b, At(a)).Remember(a.index).Remember(b.index)
      else this
    }

    function RecordEdge(container: Handle, target: Handle, oldAge: nat): State {
      if IsLive(container) && slots[container.index].age >= oldAge
         && IsLive(target) && slots[target.index].age < oldAge
      then Remember(container.index)
      else this
    }

    function Free(h: Handle): State
      requires counted <= allocs && freeTop <= |free|
      requires CountOk()
    {
      var s := FoldAllocs();
      if !IsLive(h) then s
      else
        LiveCountPositive(slots, h.index);
        var slot := slots[h.index].Vacated();
        var r := if slots[h.index].dirty.Clean? then remembered else Without(remembered, h.index);
        if slot.generation >= COMPACT_GEN_BASE then
          s.(slots := slots[h.index := slot], remembered := r, live := s.live - 1)
        else
          s.(slots := slots[h.index := slot], remembered := r, live := s.live - 1,
             free := free[..freeTop] + [h.index] + free[freeTop..], freeTop := freeTop + 1)
    }
  }

  const EMPTY := State([], [], 0, 0, [], 0, 0, 0, COMPACT_GEN_BASE)

  const FREE_TOP_UP_MIN: nat := 256
  const FREE_TOP_UP_MAX: nat := 8192

  function Min(a: nat, b: nat): nat { if a <= b then a else b }

  function Clamp(x: nat, lo: nat, hi: nat): nat
    requires lo <= hi
  {
    if x < lo then lo else if x > hi then hi else x
  }

  /** The generation the compaction after one at generation `g` uses. */
  function NextCompactGen(g: nat): nat {
    var n := (g + 1) % GEN_MOD;
    if n < COMPACT_GEN_BASE then COMPACT_GEN_BASE else n
  }

  /** `n` vacant slots. */
  function Vacant(n: nat): (v: seq<Slot>)
    ensures |v| == n && forall k | 0 <= k < n :: v[k] == VACANT
  {
    seq(n, _ => VACANT)
  }

  /** `start + n - 1` down to `start`. */
  function Downward(start: nat, n: nat): (d: seq<nat>)
    ensures |d| == n && forall k | 0 <= k < n :: d[k] == start + n - 1 - k
    ensures forall i :: i in d <==> start <= i < start + n
  {
    if n == 0 then [] else [start + n - 1] + Downward(start, n - 1)
  }

  ghost predicate NoDup(s: seq<nat>) {
    forall j, k | 0 <= j < k < |s| :: s[j] != s[k]
  }

  /** `retain(|&i| i != x)`. */
  function Without(s: seq<nat>, x: nat): (r: seq<nat>)
    ensures forall i :: i in r <==> i in s && i != x
    ensures NoDup(s) ==> NoDup(r)
    ensures |r| <= |s|
  {
    if s == [] then []
    else if s[0] == x then Without(s[1..], x)
    else
      var r := Without(s[1..], x);
      assert NoDup(s) ==> NoDup(s[1..]);
      assert NoDup(s) ==> s[0] !in s[1..];
      [s[0]] + r
  }

  lemma BarrierKeepsSticky(s: State)
    requires s.BarrierOk()
    ensures s.StickyOk()
  {
    forall i | 0 <= i < |s.slots| && s.slots[i].Old() && s.slots[i].dirty == Clean
      ensures !s.slots[i].value.value.InteriorMutable()
    {
      assert s.BarrierAt(i);
    }
  }

  // ---- Counting live slots

  function LiveCount(slots: seq<Slot>): nat {
    if slots == [] then 0
    else LiveCount(slots[..|slots| - 1]) + (if slots[|slots| - 1].Live() then 1 else 0)
  }

  lemma {:induction false} LiveCountUpdate(slots: seq<Slot>, i: nat, x: Slot)
    requires i < |slots|
    ensures LiveCount(slots[i := x])
         == LiveCount(slots) - (if slots[i].Live() then 1 else 0) + (if x.Live() then 1 else 0)
  {
    var n := |slots| - 1;
    if i == n {
      assert slots[i := x][..n] == slots[..n];
    } else {
      LiveCountUpdate(slots[..n], i, x);
      assert slots[i := x][..n] == slots[..n][i := x];
    }
  }

  lemma {:induction false} LiveCountAppend(slots: seq<Slot>, more: seq<Slot>)
    ensures LiveCount(slots + more) == LiveCount(slots) + LiveCount(more)
  {
    if more == [] {
      assert slots + more == slots;
    } else {
      var n := |more| - 1;
      LiveCountAppend(slots, more[..n]);
      assert (slots + more)[..|slots| + n] == slots + more[..n];
    }
  }

  lemma LiveCountVacant(n: nat)
    ensures LiveCount(Vacant(n)) == 0
  {
    if n > 0 {
      LiveCountVacant(n - 1);
      assert Vacant(n)[..n - 1] == Vacant(n - 1);
    }
  }

  lemma LiveCountPositive(slots: seq<Slot>, i: nat)
    requires i < |slots| && slots[i].Live()
    ensures LiveCount(slots) > 0
  {
    if i < |slots| - 1 { LiveCountPositive(slots[..|slots| - 1], i); }
  }

  /** What topping up leaves: the fresh slots under the still-free entries, the
      consumed record untouched. */
  lemma TopUpParts(s: State, want: nat)
    requires s.freeTop <= |s.free|
    ensures var t := s.TopUpFree(want); var add := |t.slots| - |s.slots|;
      && 0 <= add && s.freeTop <= t.freeTop <= |t.free|
      && t.freeTop == s.freeTop + add
      && (add > 0 ==> t.youngFloor == |t.slots| <= NO_INDEX)
      && t.slots == s.slots + Vacant(add)
      && t.free[..t.freeTop] == Downward(|s.slots|, add) + s.free[..s.freeTop]
      && t.free[t.freeTop..] == s.free[s.freeTop..]
  {
    var start := |s.slots|;
    var add := Min(want, if start + 1 <= NO_INDEX then NO_INDEX - (start + 1) else 0);
    if s.youngFloor != start || add == 0 {
      assert s.slots + Vacant(0) == s.slots;
    } else {
      var down := Downward(start, add);
      assert (down + s.free)[..s.freeTop + add] == down + s.free[..s.freeTop];
    }
  }

  lemma TopUpTableOk(s: State, want: nat)
    requires s.TableOk()
    ensures s.TopUpFree(want).TableOk()
  {
    TopUpParts(s, want);
    var t := s.TopUpFree(want);
    if t != s { ToppedTableOk(s, t, |t.slots| - |s.slots|); }
  }

  /** Fresh vacant slots listed under the still-free entries keep the table exact. */
  lemma ToppedTableOk(s: State, t: State, add: nat)
    requires s.TableOk() && t.slots == s.slots + Vacant(add) && t.youngFloor == |t.slots| <= NO_INDEX
    requires t.freeTop == s.freeTop + add <= |t.free|
    requires t.free[..t.freeTop] == Downward(|s.slots|, add) + s.free[..s.freeTop]
    requires t.free[t.freeTop..] == s.free[s.freeTop..]
    ensures t.TableOk()
  {
    var down, top := Downward(|s.slots|, add), s.free[..s.freeTop];
    assert forall k | 0 <= k < |top| :: top[k] == s.free[k];
    NoDupConcat(down, top);
    forall k | 0 <= k < |t.free| ensures t.free[k] < |t.slots| {
      if k < t.freeTop {
        assert t.free[k] == (down + top)[k];
      } else {
        assert t.free[k] == t.free[t.freeTop..][k - t.freeTop] == s.free[s.freeTop + (k - t.freeTop)];
      }
    }
  }

  lemma NoDupConcat(a: seq<nat>, b: seq<nat>)
    requires NoDup(a) && NoDup(b) && forall i | i in b :: i !in a
    ensures NoDup(a + b)
  {
    assert forall j | 0 <= j < |a| :: a[j] in a;
    assert forall j | 0 <= j < |b| :: b[j] in b;
  }

  lemma BeforeTakeOk(s: State)
    requires s.TableOk()
    ensures s.BeforeTake().TableOk()
  {
    var s1 := s.(allocs := s.allocs + 1);
    assert s1.TableOk();
    TopUpTableOk(s1, Clamp(|s.slots| / 8, FREE_TOP_UP_MIN, FREE_TOP_UP_MAX));
  }
}
