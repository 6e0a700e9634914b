/** Whole runs of the machine: mutator and collector steps in any order. */
module HeapRuns {
  import opened HeapTypes
  import opened HeapState
  import opened HeapInvariants
  import opened HeapSweeps
  import opened HeapSweepLaws
  import opened Reachability
  import opened CollectionLaws
  import opened Compaction

  datatype Op = Alloc(v: Value) | Store(h: Handle, v: Value) | Append(h: Handle, at: nat, v: Value)
              | Inside(h: Handle, v: Value) | Swap(a: Handle, b: Handle)
              | RecordEdge(container: Handle, target: Handle, oldAge: nat)
              | Free(h: Handle) | ReserveFree(n: nat) | ResetPressure
              | MinorGc(roots: seq<Handle>, entries: seq<Entry>)
              | MajorGc(roots: seq<Handle>, entries: seq<Entry>, scan: bool)
              | MoveGc(roots: seq<Handle>)

  /** What the callers of each operation owe: they store handles they were given, an
      append changes nothing before its position, and (for a compaction) the roots
      cover what the hooks would keep and no kept object dangles. */
  ghost predicate Allowed(s: State, op: Op) {
    match op
    case Alloc(v) => s.TableOk() && s.EdgesIssued(v) && s.Alloc(v).1.Some?
    case Store(_, v) => s.EdgesIssued(v)
    case Append(h, at, v) => s.EdgesIssued(v) && (s.IsLive(h) ==> UnchangedBefore(s.At(h), v, at))
    case Inside(_, v) => s.EdgesIssued(v)
    case MoveGc(roots) => Sealed(s, Kept(s, FullPlan(roots, [], false)))
    case _ => true
  }

  ghost function Apply(s: State, op: Op): State
    requires s.BookOk() && s.CountOk()
  {
    match op
    case Alloc(v) => s.Alloc(v).0
    case Store(h, v) => s.Store(h, v)
    case Append(h, at, v) => s.Append(h, at, v)
    case Inside(h, v) => s.Inside(h, v)
    case Swap(a, b) => s.Swap(a, b)
    case RecordEdge(c, t, age) => s.RecordEdge(c, t, age)
    case Free(h) => s.Free(h)
    case ReserveFree(n) => s.ReserveFree(n)
    case ResetPressure => s.ResetAllocPressure()
    case MinorGc(roots, entries) => Minor(s, roots, entries)
    case MajorGc(roots, entries, scan) => Major(s, roots, entries, scan)
    case MoveGc(roots) => Compact(s, Kept(s, FullPlan(roots, [], false)))
  }

  /** Every operation keeps every invariant: the table exact, the young objects tracked,
      the remembered set right, the count right, and the write barrier sound. */
  lemma OpKeepsInv(s: State, op: Op)
    requires s.Inv() && Allowed(s, op)
    ensures Apply(s, op).Inv()
  {
    hide State.Inv;
    match op
    case Alloc(v) => AllocInv(s, v);
    case Store(h, v) => StoreInv(s, h, v);
    case Append(h, at, v) => AppendInv(s, h, at, v);
    case Inside(h, v) => InsideInv(s, h, v);
    case Swap(a, b) => SwapInv(s, a, b);
    case RecordEdge(c, t, age) => RecordEdgeInv(s, c, t, age);
    case Free(h) => FreeInv(s, h);
    case ReserveFree(n) => ReserveFreeInv(s, n);
    case ResetPressure => FoldInv(s);
    case MinorGc(roots, entries) => MinorIsSound(s, roots, entries);
    case MajorGc(roots, entries, scan) => MajorIsExact(s, roots, entries, scan);
    case MoveGc(roots) => CompactInv(s, Kept(s, FullPlan(roots, [], false)));
  }

  ghost predicate IsRun(states: seq<State>, ops: seq<Op>) {
    && |states| == |ops| + 1
    && forall i | 0 <= i < |ops| :: StepAt(states, ops, i)
  }

  /** That the state is good is no demand on the program: `RunKeepsInv` has it of every run. */
  ghost predicate StepAt(states: seq<State>, ops: seq<Op>, i: nat)
    requires i < |ops| && |states| == |ops| + 1
  {
    Allowed(states[i], ops[i]) && states[i].Inv() && states[i + 1] == Apply(states[i], ops[i])
  }

  /** A run from a good state is good throughout (so `IsRun`'s own demand that each step
      start from a good state is met by every run from the empty heap). */
  lemma {:induction false} RunKeepsInv(states: seq<State>, ops: seq<Op>, n: nat)
    requires n <= |ops| && |states| == |ops| + 1 && states[0].Inv()
    requires forall i | 0 <= i < n ::
      Allowed(states[i], ops[i]) && (states[i].Inv() ==> states[i + 1] == Apply(states[i], ops[i]))
    ensures forall i | 0 <= i <= n :: states[i].Inv()
  {
    if n > 0 {
      RunKeepsInv(states, ops, n - 1);
      OpKeepsInv(states[n - 1], ops[n - 1]);
    }
  }

  // ---- Handles

  lemma OpGrowsIssued(s: State, op: Op)
    requires s.Inv() && Allowed(s, op) && !op.MoveGc?
    ensures IssuedGrows(s, Apply(s, op))
  {
    match op
    case Alloc(v) => AllocInv(s, v);
    case Free(h) => FreeInv(s, h);
    case ReserveFree(n) => ReserveFreeInv(s, n);
    case MinorGc(roots, entries) => MinorIsSound(s, roots, entries);
    case MajorGc(roots, entries, scan) => MajorIsExact(s, roots, entries, scan);
    case _ => MutatorGrowsIssued(s, op);
  }

  lemma MutatorGrowsIssued(s: State, op: Op)
    requires s.Inv() && Allowed(s, op)
    requires op.Store? || op.Append? || op.Inside? || op.Swap? || op.RecordEdge? || op.ResetPressure?
    ensures IssuedGrows(s, Apply(s, op))
  {
    hide Slot.SetScan, Slot.ScanFrom, State.Inv;
  }

  lemma {:induction false} RunGrowsIssued(states: seq<State>, ops: seq<Op>, i: nat, j: nat)
    requires IsRun(states, ops) && i <= j <= |ops| && forall k | i <= k < j :: !ops[k].MoveGc?
    ensures IssuedGrows(states[i], states[j])
    decreases j - i
  {
    if i < j {
      RunGrowsIssued(states, ops, i, j - 1);
      assert StepAt(states, ops, j - 1);
      OpGrowsIssued(states[j - 1], ops[j - 1]);
    }
  }

  /** Without compaction no allocation returns a handle an earlier one returned. */
  lemma HandlesAreUnique(states: seq<State>, ops: seq<Op>, i: nat, j: nat)
    requires IsRun(states, ops) && i < j < |ops| && ops[i].Alloc? && ops[j].Alloc?
    requires forall k | i <= k < j :: !ops[k].MoveGc?
    ensures Allowed(states[i], ops[i]) && Allowed(states[j], ops[j])
    ensures states[i].Alloc(ops[i].v).1 != states[j].Alloc(ops[j].v).1
  {
    hide State.Inv, State.Alloc;
    assert StepAt(states, ops, i) && StepAt(states, ops, j);
    AllocInv(states[i], ops[i].v);
    AllocInv(states[j], ops[j].v);
    RunGrowsIssued(states, ops, i + 1, j);
  }

  // ---- Objects stay alive

  /** `op` neither frees nor rewrites `h`, and a collection is told of it. */
  ghost predicate Spares(s: State, op: Op, h: Handle) {
    match op
    case Store(g, _) => g != h
    case Append(g, _, _) => g != h
    case Inside(g, _) => g != h
    case Swap(a, b) => a != h && b != h
    case Free(g) => g != h
    case MinorGc(roots, _) => Reachable(s, RootSet(roots), true, h)
    case MajorGc(roots, _, scan) => Reachable(s, RootSet(roots), scan, h)
    case MoveGc(roots) => Reachable(s, RootSet(roots), false, h)
    case _ => true
  }

  /** The handle `h` goes by after `op`, and what becomes of a value it leaves alone: a
      moving collection rewrites its references. */
  ghost function Renamed(s: State, op: Op, h: Handle): Handle {
    if op.MoveGc? then Forward(s, Kept(s, FullPlan(op.roots, [], false)), h) else h
  }

  ghost function Readdressed(s: State, op: Op, v: Value): Value {
    if op.MoveGc? then Relocated(s, Kept(s, FullPlan(op.roots, [], false)), v) else v
  }

  lemma OpSpares(s: State, op: Op, h: Handle)
    requires s.Inv() && Allowed(s, op) && s.IsLive(h) && Spares(s, op, h)
    ensures var (t, g) := (Apply(s, op), Renamed(s, op, h)); t.IsLive(g) && t.At(g) == Readdressed(s, op, s.At(h))
  {
    match op
    case Alloc(v) => AllocInv(s, v);
    case Free(g) => FreeInv(s, g);
    case ReserveFree(n) => TopUpParts(s, if n >= s.freeTop then n - s.freeTop else 0);
    case MinorGc(roots, entries) => MinorKeepsReachable(s, roots, entries, h);
    case MajorGc(roots, entries, scan) => MajorKeepsReachable(s, roots, entries, scan, h);
    case MoveGc(roots) =>
      ReachableIsKept(s, FullPlan(roots, [], false), h);
      MovedHandle(s, Kept(s, FullPlan(roots, [], false)), h);
    case _ => MutatorSpares(s, op, h);
  }

  lemma MutatorSpares(s: State, op: Op, h: Handle)
    requires s.Inv() && Allowed(s, op) && s.IsLive(h) && Spares(s, op, h)
    requires op.Store? || op.Append? || op.Inside? || op.Swap? || op.RecordEdge? || op.ResetPressure?
    ensures Apply(s, op).IsLive(h) && Apply(s, op).At(h) == s.At(h)
  {
    hide Slot.SetScan, Slot.ScanFrom, State.Inv;
  }

  /** The handle that `h` of the first state goes by in state `n`. */
  ghost function Followed(states: seq<State>, ops: seq<Op>, h: Handle, n: nat): Handle
    requires n <= |ops| && |states| == |ops| + 1
  {
    if n == 0 then h else Renamed(states[n - 1], ops[n - 1], Followed(states, ops, h, n - 1))
  }

  /** What a value of the first state, left alone, has become in state `n`. */
  ghost function Carried(states: seq<State>, ops: seq<Op>, v: Value, n: nat): Value
    requires n <= |ops| && |states| == |ops| + 1
  {
    if n == 0 then v else Readdressed(states[n - 1], ops[n - 1], Carried(states, ops, v, n - 1))
  }

  /** Over a whole run an object that every collection can reach from its roots, and that
      the program neither frees nor rewrites, is live at the end under its forwarded handle,
      with the value it had, its references forwarded alike; without compactions both are
      as they were. */
  lemma {:induction false} ReachableSurvivesRun(states: seq<State>, ops: seq<Op>, h: Handle, n: nat)
    requires IsRun(states, ops) && n <= |ops| && states[0].IsLive(h)
    requires forall i | 0 <= i < n :: Spares(states[i], ops[i], Followed(states, ops, h, i))
    ensures var (g, v) := (Followed(states, ops, h, n), Carried(states, ops, states[0].At(h), n));
      && states[n].IsLive(g) && states[n].At(g) == v
      && ((forall i | 0 <= i < n :: !ops[i].MoveGc?) ==> g == h && v == states[0].At(h))
  {
    hide Spares, Renamed, Readdressed, Allowed, Apply, State.Inv;
    if n > 0 {
      ReachableSurvivesRun(states, ops, h, n - 1);
      assert StepAt(states, ops, n - 1);
      OpSpares(states[n - 1], ops[n - 1], Followed(states, ops, h, n - 1));
      NoMoveKeeps(states[n - 1], ops[n - 1], h, states[0].At(h));
    }
  }

  lemma NoMoveKeeps(s: State, op: Op, h: Handle, v: Value)
    ensures !op.MoveGc? ==> Renamed(s, op, h) == h && Readdressed(s, op, v) == v
  {
  }

  // ---- Nothing dangles

  /** A program that stores only live handles and leaves freeing to the collector; a full
      collection runs with its `scan` hook. */
  ghost predicate Disciplined(s: State, op: Op) {
    match op
    case Alloc(v) => s.EdgesLive(v) && s.TableOk() && s.Alloc(v).1.Some?
    case Store(_, v) => s.EdgesLive(v)
    case Append(h, at, v) => s.EdgesLive(v) && (s.IsLive(h) ==> UnchangedBefore(s.At(h), v, at))
    case Inside(_, v) => s.EdgesLive(v)
    case Free(_) => false
    case MajorGc(_, _, scan) => scan
    case MoveGc(roots) => ExtrasCovered(s, Kept(s, FullPlan(roots, [], false)))
    case _ => true
  }

  /** A compaction's plain mark does not call the `scan` hook: its roots must cover it. */
  ghost predicate ExtrasCovered(s: State, k: set<Handle>) {
    forall h | h in k && s.IsLive(h) :: ExtrasIn(s, h, k)
  }

  ghost predicate ExtrasIn(s: State, h: Handle, k: set<Handle>)
    requires s.IsLive(h)
  {
    forall e | e in s.At(h).extra :: e in k
  }

  lemma DisciplinedIsAllowed(s: State, op: Op)
    requires s.Inv() && s.NoDangling() && Disciplined(s, op)
    ensures Allowed(s, op)
  {
    if op.MoveGc? {
      var p := FullPlan(op.roots, [], false);
      var k := Kept(s, p);
      forall h | h in k && s.IsLive(h) ensures SealedAt(s, k, h) {
        assert EdgesIn(s, p, h, k) && ExtrasIn(s, h, k);
        assert s.EdgesLive(s.slots[h.index].value.value);
      }
    }
  }

  /** Collections leave no survivor with an edge to a freed object. */
  lemma SweptNoDangling(s: State, t: State, p: Plan)
    requires s.NoDangling() && p.scan && Retains(s, t, Kept(s, p))
    ensures t.NoDangling()
  {
    forall i | 0 <= i < |t.slots| && t.slots[i].Live() ensures t.EdgesLive(t.slots[i].value.value) {
      var h := t.HandleAt(i);
      assert t.IsLive(h) && t.At(h) == s.At(h);
      assert s.EdgesLive(s.slots[i].value.value);
      assert EdgesIn(s, p, h, Kept(s, p));
    }
  }

  /** Writing a value whose edges are live into a heap none of whose edges dangle. */
  lemma RewriteNoDangling(s: State, t: State)
    requires s.NoDangling() && forall h :: s.IsLive(h) ==> t.IsLive(h)
    requires forall i | 0 <= i < |t.slots| && t.slots[i].Live() :: s.EdgesLive(t.slots[i].value.value)
    ensures t.NoDangling()
  {
    forall i | 0 <= i < |t.slots| && t.slots[i].Live() ensures t.EdgesLive(t.slots[i].value.value) {
      assert s.EdgesLive(t.slots[i].value.value);
    }
  }

  /** A mutator step other than an allocation moves no slot and stores only live handles. */
  lemma MutatorNoDangling(s: State, op: Op)
    requires s.Inv() && s.NoDangling() && Disciplined(s, op)
    requires op.Store? || op.Append? || op.Inside? || op.RecordEdge? || op.ResetPressure?
    ensures Apply(s, op).NoDangling()
  {
    var t := Apply(s, op);
    MutatorStores(s, op);
    forall i | 0 <= i < |t.slots| && t.slots[i].Live() ensures s.EdgesLive(t.slots[i].value.value) {
      if t.slots[i].value == s.slots[i].value { assert s.EdgesLive(s.slots[i].value.value); }
    }
    RewriteNoDangling(s, t);
  }

  /** Each slot keeps its value or takes one whose edges are live. */
  lemma MutatorStores(s: State, op: Op)
    requires s.Inv() && Disciplined(s, op)
    requires op.Store? || op.Append? || op.Inside? || op.RecordEdge? || op.ResetPressure?
    ensures var t := Apply(s, op);
      && |t.slots| == |s.slots| && (forall h :: s.IsLive(h) ==> t.IsLive(h))
      && (forall i | 0 <= i < |t.slots| && t.slots[i].Live() ::
            t.slots[i].value == s.slots[i].value || s.EdgesLive(t.slots[i].value.value))
  {
    hide Slot.SetScan, Slot.ScanFrom, State.Inv, State.EdgesLive;
  }

  lemma SwapNoDangling(s: State, a: Handle, b: Handle)
    requires s.Inv() && s.NoDangling() && Allowed(s, Swap(a, b))
    ensures Apply(s, Swap(a, b)).NoDangling()
  {
    hide State.Inv, State.Swap, State.EdgesLive, DueAt;
    var t := s.Swap(a, b);
    SwapExchanges(s, a, b);
    forall i | 0 <= i < |t.slots| && t.slots[i].Live() ensures s.EdgesLive(t.slots[i].value.value) {
      var h := t.HandleAt(i);
      assert t.IsLive(h) && s.IsLive(h) && s.EdgesLive(s.slots[i].value.value);
      if t.At(h) != s.At(h) {
        assert s.EdgesLive(s.slots[a.index].value.value) && s.EdgesLive(s.slots[b.index].value.value);
      }
    }
    RewriteNoDangling(s, t);
  }

  lemma OpKeepsNoDangling(s: State, op: Op)
    requires s.Inv() && s.NoDangling() && Disciplined(s, op)
    ensures Apply(s, op).NoDangling()
  {
    DisciplinedIsAllowed(s, op);
    var t := Apply(s, op);
    match op
    case MinorGc(roots, entries) =>
      MinorIsSound(s, roots, entries);
      SweptNoDangling(s, t, MinorPlan(s, roots, entries));
    case MajorGc(roots, entries, scan) =>
      MajorIsExact(s, roots, entries, scan);
      SweptNoDangling(s, t, FullPlan(roots, entries, scan));
    case MoveGc(roots) => CompactInv(s, Kept(s, FullPlan(roots, [], false)));
    case Alloc(v) => AllocNoDangling(s, v);
    case ReserveFree(n) => ReserveNoDangling(s, n);
    case Swap(a, b) => SwapNoDangling(s, a, b);
    case _ => MutatorNoDangling(s, op);
  }

  lemma AllocNoDangling(s: State, v: Value)
    requires s.Inv() && s.NoDangling() && s.EdgesLive(v) && s.Alloc(v).1.Some?
    ensures s.Alloc(v).0.NoDangling()
  {
    assert s.EdgesIssued(v);
    AllocInv(s, v);
    var (t, r) := s.Alloc(v);
    forall i | 0 <= i < |t.slots| && t.slots[i].Live() ensures s.EdgesLive(t.slots[i].value.value) {
      if i != r.value.index {
        assert t.IsLive(t.HandleAt(i)) && s.IsLive(t.HandleAt(i));
        assert s.EdgesLive(s.slots[i].value.value);
      }
    }
    RewriteNoDangling(s, t);
  }

  lemma ReserveNoDangling(s: State, n: nat)
    requires s.Inv() && s.NoDangling()
    ensures s.ReserveFree(n).NoDangling()
  {
    TopUpParts(s, if n >= s.freeTop then n - s.freeTop else 0);
    var t := s.ReserveFree(n);
    forall i | 0 <= i < |t.slots| && t.slots[i].Live() ensures s.EdgesLive(t.slots[i].value.value) {
      assert s.EdgesLive(s.slots[i].value.value);
    }
    RewriteNoDangling(s, t);
  }

  /** For a disciplined program nothing ever dangles and every invariant holds, through
      minor, full and moving collections alike. */
  lemma {:induction false} DisciplinedRunIsSound(states: seq<State>, ops: seq<Op>, n: nat)
    requires n <= |ops| && |states| == |ops| + 1 && states[0] == EMPTY
    requires forall i | 0 <= i < n ::
      Disciplined(states[i], ops[i]) && (states[i].Inv() ==> states[i + 1] == Apply(states[i], ops[i]))
    ensures states[n].Inv() && states[n].NoDangling()
  {
    if n == 0 {
      EmptyInv();
    } else {
      DisciplinedRunIsSound(states, ops, n - 1);
      DisciplinedIsAllowed(states[n - 1], ops[n - 1]);
      OpKeepsInv(states[n - 1], ops[n - 1]);
      OpKeepsNoDangling(states[n - 1], ops[n - 1]);
    }
  }
}
