/** An array's element storage: inline in the cell, in a vector, or as a queue whose dead
    prefix makes `shift` and `unshift` cheap. */
module ArrayStorage {
  import opened Wrappers

  const INLINE_CAP: nat := 3
  const ON_HEAP: nat := 255
  const QUEUE_MIN: nat := 16
  const U32: nat := 0x1_0000_0000
  /** `NanBox::undefined()`, what dead and unused element slots hold. */
  const UNDEFINED: int := 0

  type Elem = int

  /** `hasBuffer` is "the vector's capacity is not zero". */
  datatype Storage = Storage(elems: seq<Elem>, hasBuffer: bool, head: nat,
                             inline: seq<Elem>, inlineLen: nat, side: bool)
  {
    predicate OnHeap() { inlineLen == ON_HEAP }

    predicate IsQueue() { inlineLen == 0 && hasBuffer }

    predicate IsInline() { inlineLen != ON_HEAP && !IsQueue() }

    ghost predicate Valid() {
      && |inline| == INLINE_CAP
      && (OnHeap() || inlineLen <= INLINE_CAP)
      && (OnHeap() ==> hasBuffer && Blank(inline))
      && (IsQueue() ==> head <= |elems| && head < U32 && Blank(elems[..head]) && Blank(inline) && side)
      && (IsInline() ==> elems == [] && !hasBuffer && Blank(inline[inlineLen..]))
    }

    /** The elements, `as_slice`. */
    function Contents(): seq<Elem>
      requires Valid()
    {
      if OnHeap() then elems else if IsQueue() then elems[head..] else inline[..inlineLen]
    }

    // ---- Transitions, each with the number of elements it moves

    /** `vec_mut`: the elements end in the vector, at its start. */
    function Spilled(): (Storage, nat)
      requires Valid()
    {
      if OnHeap() then (this, 0)
      else if IsQueue() then (this.(elems := elems[head..], head := 0, inlineLen := ON_HEAP), |elems| - head)
      else
        (this.(elems := inline[..inlineLen], hasBuffer := true, inline := Blanks(INLINE_CAP), inlineLen := ON_HEAP),
         inlineLen)
    }

    function ShiftFront(): (Storage, Option<Elem>, nat)
      requires Valid()
    {
      if Contents() == [] then (this, None, 0)
      else if !IsQueue() && (!OnHeap() || |elems| < QUEUE_MIN || |elems| >= U32) then
        var (s, moved) := Spilled();
        (s.(elems := s.elems[1..]), Some(s.elems[0]), moved + |s.elems|)
      else
        var q := if IsQueue() then this else this.(inlineLen := 0, head := 0, side := true);
        var v := q.elems[q.head];
        var r := q.(elems := q.elems[q.head := UNDEFINED], head := (q.head + 1) % U32);
        if r.head >= 2 * (|r.elems| - r.head) + QUEUE_MIN
        then (r.(elems := r.elems[r.head..], head := 0), Some(v), 1 + (|r.elems| - r.head))
        else (r, Some(v), 1)
    }

    function UnshiftFront(vs: seq<Elem>): (Storage, nat)
      requires Valid()
    {
      var n := |vs|;
      if n == 0 then (this, 0)
      else if IsQueue() && head >= n then
        (this.(elems := elems[..head - n] + vs + elems[head..], head := head - n), n)
      else
        var total := |Contents()| + n;
        if total < QUEUE_MIN || total + total >= U32 then
          var (s, moved) := Spilled();
          (s.(elems := vs + s.elems), moved + |s.elems| + n)
        else
          (this.(elems := Blanks(total) + vs + Contents(), hasBuffer := true, inline := Blanks(INLINE_CAP),
                 inlineLen := 0, head := total, side := true), total + total)
    }

    function PushBack(v: Elem): (Storage, nat)
      requires Valid()
    {
      var (s, moved) := if IsQueue() then (this, 0) else Spilled();
      (s.(elems := s.elems + [v]), moved + 1)
    }

    function ExtendBack(vs: seq<Elem>): (Storage, nat)
      requires Valid()
    {
      var (s, moved) := if IsQueue() then (this, 0) else Spilled();
      (s.(elems := s.elems + vs), moved + |vs|)
    }

    function PopBack(): (Storage, Option<Elem>, nat)
      requires Valid()
    {
      var (s, moved) := if IsQueue() then (this, 0) else Spilled();
      if s.Empty() then (s, None, moved)
      else (s.(elems := s.elems[..|s.elems| - 1]), Some(s.elems[|s.elems| - 1]), moved + 1)
    }

    /** Nothing to pop. */
    predicate Empty() {
      (if IsQueue() && head <= |elems| then |elems| - head else |elems|) == 0
    }

    /** Returns the removed elements. */
    function SpliceAt(start: nat, delete: nat, vs: seq<Elem>): (Storage, seq<Elem>, nat)
      requires Valid()
    {
      var (s, moved) := Spilled();
      var end := if start + delete <= |s.elems| then start + delete else |s.elems|;
      var from := if start <= end then start else end;
      (s.(elems := s.elems[..from] + vs + s.elems[end..]), s.elems[from..end], moved + |vs| + |s.elems| - end)
    }
  }

  ghost predicate Blank(s: seq<Elem>) { forall i | 0 <= i < |s| :: s[i] == UNDEFINED }

  function Blanks(n: nat): (s: seq<Elem>)
    ensures |s| == n && Blank(s)
  {
    seq(n, _ => UNDEFINED)
  }

  function FromSlice(vs: seq<Elem>): (s: Storage)
    ensures s.Valid() && s.Contents() == vs
  {
    if |vs| <= INLINE_CAP
    then Storage([], false, 0, vs + Blanks(INLINE_CAP - |vs|), |vs|, false)
    else Storage(vs, true, 0, Blanks(INLINE_CAP), ON_HEAP, false)
  }

  // ---- Refinement: every operation is the plain sequence operation

  lemma SpilledRefines(s: Storage)
    requires s.Valid()
    ensures var (t, _) := s.Spilled(); t.Valid() && t.OnHeap() && t.Contents() == t.elems == s.Contents()
  {
  }

  /** A queue's shift makes slot `head` dead, and may reclaim the dead prefix. */
  lemma QueueShift(q: Storage)
    requires q.Valid() && q.IsQueue() && q.Contents() != [] && q.head + 1 < U32
    ensures var t := q.ShiftFront().0; t.Valid() && t.Contents() == q.Contents()[1..]
  {
    HeadDies(q.elems, q.head);
    var h, e := q.head + 1, q.elems[q.head := UNDEFINED];
    assert q.ShiftFront().0 ==
      if h >= 2 * (|e| - h) + QUEUE_MIN then q.(elems := e[h..], head := 0) else q.(elems := e, head := h);
  }

  lemma HeadDies(elems: seq<Elem>, head: nat)
    requires head < |elems| && Blank(elems[..head])
    ensures var e := elems[head := UNDEFINED];
      e[head + 1..] == elems[head..][1..] && Blank(e[..head + 1]) && e[head + 1..][0..] == e[head + 1..]
  {
    assert elems[head := UNDEFINED][..head + 1] == elems[..head] + [UNDEFINED];
  }

  /** A long array entering queue mode holds the same elements. */
  lemma EnterQueue(s: Storage)
    requires s.Valid() && s.OnHeap() && QUEUE_MIN <= |s.elems| < U32
    ensures var q := s.(inlineLen := 0, head := 0, side := true);
      q.Valid() && q.IsQueue() && q.Contents() == s.Contents() && q.ShiftFront() == s.ShiftFront()
  {
    assert s.elems[0..] == s.elems;
  }

  /** `shift` drops the first element. A queue's 32-bit head is the one limit: the
      refinement holds exactly when the head does not wrap. */
  lemma ShiftRefines(s: Storage)
    requires s.Valid()
    ensures var (t, r, _) := s.ShiftFront();
      && r == (if s.Contents() == [] then None else Some(s.Contents()[0]))
      && (s.Contents() == [] ==> t == s)
      && (s.Contents() != [] ==>
            ((t.Valid() && t.Contents() == s.Contents()[1..]) <==> !(s.IsQueue() && s.head + 1 == U32)))
  {
    if s.Contents() != [] {
      if s.IsQueue() {
        if s.head + 1 < U32 { QueueShift(s); } else { WrapLosesTrack(s); }
      } else if s.OnHeap() && QUEUE_MIN <= |s.elems| < U32 {
        EnterQueue(s);
        QueueShift(s.(inlineLen := 0, head := 0, side := true));
      } else {
        SpilledRefines(s);
      }
    }
  }

  /** A wrapped head brings the dead slots back to life. `LongQueueLosesTrack` is a run
      that gets there. */
  lemma WrapLosesTrack(q: Storage)
    requires q.Valid() && q.IsQueue() && q.head + 1 == U32 && q.Contents() != []
    ensures var t := q.ShiftFront().0; t.head == 0 && |t.elems| > |q.Contents()[1..]| && t.IsQueue()
  {
  }

  lemma UnshiftRefines(s: Storage, vs: seq<Elem>)
    requires s.Valid()
    ensures var (t, _) := s.UnshiftFront(vs); t.Valid() && t.Contents() == vs + s.Contents()
  {
    SpilledRefines(s);
    var t := s.UnshiftFront(vs).0;
    if |vs| > 0 {
      if s.IsQueue() && s.head >= |vs| {
        assert t.elems[..t.head] == s.elems[..s.head][..t.head];
        assert t.elems[t.head..] == vs + s.elems[s.head..];
      } else if t.IsQueue() {
        assert t.elems[..t.head] == Blanks(t.head);
        assert t.elems[t.head..] == vs + s.Contents();
      }
    }
  }

  lemma PushRefines(s: Storage, v: Elem)
    requires s.Valid()
    ensures var (t, _) := s.PushBack(v); t.Valid() && t.Contents() == s.Contents() + [v]
  {
    SpilledRefines(s);
    if s.IsQueue() {
      var t := s.PushBack(v).0;
      assert t.elems[..t.head] == s.elems[..s.head];
    }
  }

  lemma ExtendRefines(s: Storage, vs: seq<Elem>)
    requires s.Valid()
    ensures var (t, _) := s.ExtendBack(vs); t.Valid() && t.Contents() == s.Contents() + vs
  {
    SpilledRefines(s);
    if s.IsQueue() {
      var t := s.ExtendBack(vs).0;
      assert t.elems[..t.head] == s.elems[..s.head];
    }
  }

  lemma PopRefines(s: Storage)
    requires s.Valid()
    ensures var (t, r, _) := s.PopBack(); var n := |s.Contents()|;
      && t.Valid()
      && (n == 0 ==> r == None && t.Contents() == [])
      && (n > 0 ==> r == Some(s.Contents()[n - 1]) && t.Contents() == s.Contents()[..n - 1])
  {
    if s.IsQueue() { PopQueue(s); } else { PopSpilled(s); }
  }

  lemma PopQueue(s: Storage)
    requires s.Valid() && s.IsQueue()
    ensures var (t, r, _) := s.PopBack(); var n := |s.Contents()|;
      && t.Valid()
      && (n == 0 ==> r == None && t.Contents() == [])
      && (n > 0 ==> r == Some(s.Contents()[n - 1]) && t.Contents() == s.Contents()[..n - 1])
  {
    if |s.Contents()| > 0 {
      var t := s.PopBack().0;
      assert t == s.(elems := s.elems[..|s.elems| - 1]);
      assert t.elems[..t.head] == s.elems[..s.head];
      assert t.elems[t.head..] == s.elems[s.head..][..|s.elems| - 1 - s.head];
    }
  }

  lemma PopSpilled(s: Storage)
    requires s.Valid() && !s.IsQueue()
    ensures var (t, r, _) := s.PopBack(); var n := |s.Contents()|;
      && t.Valid()
      && (n == 0 ==> r == None && t.Contents() == [])
      && (n > 0 ==> r == Some(s.Contents()[n - 1]) && t.Contents() == s.Contents()[..n - 1])
  {
    hide Storage.Spilled;
    SpilledRefines(s);
  }

  lemma PopTakesLast(s: Storage)
    requires s.Valid()
    ensures var (t, r, _) := s.PopBack();
      && t.Valid() && r.Some? == (s.Contents() != [])
      && (r.Some? ==> t.Contents() + [r.value] == s.Contents())
  {
    PopRefines(s);
    var c := s.Contents();
    assert |c| > 0 ==> c == c[..|c| - 1] + [c[|c| - 1]];
  }

  /** `splice` replaces the clamped range and hands back what was there. */
  lemma SpliceRefines(s: Storage, start: nat, delete: nat, vs: seq<Elem>)
    requires s.Valid()
    ensures var (t, removed, _) := s.SpliceAt(start, delete, vs);
      var c := s.Contents();
      var end := if start + delete <= |c| then start + delete else |c|;
      var from := if start <= |c| then start else |c|;
      t.Valid() && t.Contents() == c[..from] + vs + c[end..] && removed == c[from..end]
  {
    SpilledRefines(s);
  }

  // ---- Runs

  datatype Op = Shift | Unshift(vs: seq<Elem>) | Push(v: Elem) | Extend(vs: seq<Elem>) | Pop
              | Splice(start: nat, delete: nat, vs: seq<Elem>)

  function Taken(r: Option<Elem>): seq<Elem> { if r.Some? then [r.value] else [] }

  /** The storage, what the operation took out, and how many elements it moved. */
  function Apply(s: Storage, op: Op): (Storage, seq<Elem>, nat)
    requires s.Valid()
  {
    match op
    case Shift => var (t, r, c) := s.ShiftFront(); (t, Taken(r), c)
    case Unshift(vs) => var (t, c) := s.UnshiftFront(vs); (t, [], c)
    case Push(v) => var (t, c) := s.PushBack(v); (t, [], c)
    case Extend(vs) => var (t, c) := s.ExtendBack(vs); (t, [], c)
    case Pop => var (t, r, c) := s.PopBack(); (t, Taken(r), c)
    case Splice(start, delete, vs) => s.SpliceAt(start, delete, vs)
  }

  /** The plain sequence operation, and what it takes out. */
  function ApplySeq(c: seq<Elem>, op: Op): (seq<Elem>, seq<Elem>) {
    match op
    case Shift => if c == [] then (c, []) else (c[1..], [c[0]])
    case Unshift(vs) => (vs + c, [])
    case Push(v) => (c + [v], [])
    case Extend(vs) => (c + vs, [])
    case Pop => if c == [] then (c, []) else (c[..|c| - 1], [c[|c| - 1]])
    case Splice(start, delete, vs) =>
      var end := if start + delete <= |c| then start + delete else |c|;
      var from := if start <= |c| then start else |c|;
      (c[..from] + vs + c[end..], c[from..end])
  }

  /** The lengths for which a queue's 32-bit head never wraps. */
  const SHIFT_LIMIT: nat := 0x8000_0000 - 7

  /** Reclaiming keeps a queue's head in proportion to the longest the array has been. */
  ghost predicate Within(s: Storage, b: nat) {
    s.Valid() && |s.Contents()| <= b && (s.IsQueue() ==> s.head <= 2 * b + 13)
  }

  /** Every operation, between states of at most `b` elements, is the sequence operation. */
  lemma ApplyRefines(s: Storage, op: Op, b: nat)
    requires Within(s, b) && |ApplySeq(s.Contents(), op).0| <= b < SHIFT_LIMIT
    ensures var (t, taken, _) := Apply(s, op);
      Within(t, b) && (t.Contents(), taken) == ApplySeq(s.Contents(), op)
  {
    hide Storage.Valid, Storage.Contents, Storage.ShiftFront, Storage.UnshiftFront, Storage.PushBack,
      Storage.ExtendBack, Storage.PopBack, Storage.SpliceAt;
    match op
    case Shift =>
      ShiftRefines(s);
      ShiftHead(s, b);
    case Unshift(vs) =>
      UnshiftRefines(s, vs);
      UnshiftHead(s, vs);
    case Push(v) =>
      PushRefines(s, v);
      BackHead(s, [v]);
    case Extend(vs) =>
      ExtendRefines(s, vs);
      BackHead(s, vs);
    case Pop =>
      PopRefines(s);
      PopHead(s);
    case Splice(start, delete, vs) =>
      SpliceRefines(s, start, delete, vs);
      SpliceHead(s, start, delete, vs);
  }

  lemma ShiftHead(s: Storage, b: nat)
    requires Within(s, b) && b < SHIFT_LIMIT
    ensures var t := s.ShiftFront().0; t.IsQueue() ==> t.head <= 2 * b + 13
  {
  }

  lemma UnshiftHead(s: Storage, vs: seq<Elem>)
    requires s.Valid()
    ensures var t := s.UnshiftFront(vs).0;
      t.IsQueue() ==> (s.IsQueue() && t.head <= s.head) || t.head == |s.Contents()| + |vs|
  {
  }

  lemma BackHead(s: Storage, vs: seq<Elem>)
    requires s.Valid()
    ensures var t := s.ExtendBack(vs).0; t.IsQueue() ==> s.IsQueue() && t.head == s.head
    ensures |vs| == 1 ==> s.PushBack(vs[0]) == s.ExtendBack(vs)
  {
    if |vs| == 1 { assert vs == [vs[0]]; }
  }

  lemma PopHead(s: Storage)
    requires s.Valid()
    ensures var t := s.PopBack().0; t.IsQueue() ==> s.IsQueue() && t.head == s.head
  {
  }

  lemma SpliceHead(s: Storage, start: nat, delete: nat, vs: seq<Elem>)
    requires s.Valid()
    ensures !s.SpliceAt(start, delete, vs).0.IsQueue()
  {
  }

  // ---- Amortised cost

  /** What the structure has paid in advance: four units for each element a rebuild could
      have to copy, five for each one past balance a reclaim could. */
  function Potential(s: Storage): nat
    requires s.Valid()
  {
    var n := |s.Contents()|;
    if !s.IsQueue() then 4 * n
    else if s.head <= n then 4 * (n - s.head)
    else 5 * (s.head - n)
  }

  const UNIT_COST: nat := 100

  /** An unshift or extension counts what it adds; only a splice, which moves the rest of
      the array as any vector does, counts the `n` elements there are. */
  function Weight(n: nat, op: Op): nat {
    match op
    case Unshift(vs) => |vs|
    case Extend(vs) => 1 + |vs|
    case Splice(_, _, vs) => 1 + n + |vs|
    case _ => 1
  }

  lemma AmortisedShift(s: Storage)
    requires s.Valid() && |s.Contents()| < U32 && (s.IsQueue() ==> s.head + 1 < U32)
    ensures var (t, _, cost) := s.ShiftFront();
      t.Valid() && cost + Potential(t) <= Potential(s) + UNIT_COST
  {
    ShiftRefines(s);
  }

  lemma AmortisedUnshift(s: Storage, vs: seq<Elem>)
    requires s.Valid() && 2 * (|s.Contents()| + |vs|) < U32
    ensures var (t, cost) := s.UnshiftFront(vs);
      t.Valid() && cost + Potential(t) <= Potential(s) + UNIT_COST * |vs|
  {
    UnshiftRefines(s, vs);
  }

  lemma AmortisedPush(s: Storage, v: Elem)
    requires s.Valid()
    ensures var (t, cost) := s.PushBack(v);
      t.Valid() && cost + Potential(t) <= Potential(s) + UNIT_COST
  {
    PushRefines(s, v);
  }

  lemma AmortisedExtend(s: Storage, vs: seq<Elem>)
    requires s.Valid()
    ensures var (t, cost) := s.ExtendBack(vs);
      t.Valid() && cost + Potential(t) <= Potential(s) + UNIT_COST * (1 + |vs|)
  {
    ExtendRefines(s, vs);
  }

  lemma AmortisedPop(s: Storage)
    requires s.Valid()
    ensures var (t, _, cost) := s.PopBack();
      t.Valid() && cost + Potential(t) <= Potential(s) + UNIT_COST
  {
    PopRefines(s);
  }

  lemma AmortisedSplice(s: Storage, start: nat, delete: nat, vs: seq<Elem>)
    requires s.Valid()
    ensures var (t, _, cost) := s.SpliceAt(start, delete, vs);
      t.Valid() && cost + Potential(t) <= Potential(s) + UNIT_COST * (1 + |s.Contents()| + |vs|)
  {
    SpliceRefines(s, start, delete, vs);
  }

  /** Each operation pays its weight, whatever it moves: its cost and the new potential
      are at most the old potential and a constant per unit. */
  lemma AmortisedStep(s: Storage, op: Op, b: nat)
    requires Within(s, b) && |ApplySeq(s.Contents(), op).0| <= b < SHIFT_LIMIT
    ensures var (t, _, cost) := Apply(s, op);
      t.Valid() && cost + Potential(t) <= Potential(s) + UNIT_COST * Weight(|s.Contents()|, op)
  {
    hide Potential, Storage.Valid, Storage.Contents, Storage.ShiftFront, Storage.UnshiftFront,
      Storage.PushBack, Storage.ExtendBack, Storage.PopBack, Storage.SpliceAt;
    match op
    case Shift => AmortisedShift(s);
    case Unshift(vs) => AmortisedUnshift(s, vs);
    case Push(v) => AmortisedPush(s, v);
    case Extend(vs) => AmortisedExtend(s, vs);
    case Pop => AmortisedPop(s);
    case Splice(start, delete, vs) => AmortisedSplice(s, start, delete, vs);
  }

  // ---- Whole runs

  /** The sequence after the run, and everything each operation took out. */
  function RunSeq(c: seq<Elem>, ops: seq<Op>): (seq<Elem>, seq<seq<Elem>>) {
    if ops == [] then (c, [])
    else
      var (d, taken) := RunSeq(c, ops[..|ops| - 1]);
      var (e, more) := ApplySeq(d, ops[|ops| - 1]);
      (e, taken + [more])
  }

  /** The sequence has at most `b` elements at the start and after every operation. */
  ghost predicate LengthsWithin(c: seq<Elem>, ops: seq<Op>, b: nat) {
    |RunSeq(c, ops).0| <= b && (ops != [] ==> LengthsWithin(c, ops[..|ops| - 1], b))
  }

  function TotalWeight(c: seq<Elem>, ops: seq<Op>): nat {
    if ops == [] then 0
    else
      var before := ops[..|ops| - 1];
      TotalWeight(c, before) + Weight(|RunSeq(c, before).0|, ops[|ops| - 1])
  }

  /** The storage after the run, what each operation took out, and everything moved. */
  ghost function Run(s: Storage, ops: seq<Op>): (r: (Storage, seq<seq<Elem>>, nat)) {
    if ops == [] then (s, [], 0)
    else
      var (t, taken, cost) := Run(s, ops[..|ops| - 1]);
      if !t.Valid() then (t, taken, cost)
      else
        var (u, more, extra) := Apply(t, ops[|ops| - 1]);
        (u, taken + [more], cost + extra)
  }

  /** Any run of any number of operations, on arrays that at no time exceed `b` elements,
      behaves as on a plain sequence, and in all moves at most a constant per unit of weight
      plus a constant per initial element. */
  lemma {:induction false} RunIsCheap(s: Storage, ops: seq<Op>, b: nat)
    requires Within(s, b) && b < SHIFT_LIMIT && LengthsWithin(s.Contents(), ops, b)
    ensures var (t, taken, cost) := Run(s, ops);
      && Within(t, b) && (t.Contents(), taken) == RunSeq(s.Contents(), ops)
      && cost + Potential(t) <= Potential(s) + UNIT_COST * TotalWeight(s.Contents(), ops)
  {
    hide Potential, Apply, ApplySeq, Storage.Contents, Storage.Valid;
    if ops != [] {
      var n := |ops| - 1;
      RunIsCheap(s, ops[..n], b);
      var t := Run(s, ops[..n]).0;
      ApplyRefines(t, ops[n], b);
      AmortisedStep(t, ops[n], b);
    }
  }

  /** The run on a fresh array is the run on the sequence: contents and results. */
  ghost predicate RunsRight(vs: seq<Elem>, ops: seq<Op>) {
    var (t, taken, _) := Run(FromSlice(vs), ops);
    t.Valid() && (t.Contents(), taken) == RunSeq(vs, ops)
  }

  /** On a fresh array of `n` elements that stays below the limit, operations of total
      weight `w` move O(n + w) elements, however many they are and whatever their mix. */
  lemma FreshArrayIsCheap(vs: seq<Elem>, ops: seq<Op>, b: nat)
    requires b < SHIFT_LIMIT && |vs| <= b && LengthsWithin(vs, ops, b)
    ensures RunsRight(vs, ops)
    ensures Run(FromSlice(vs), ops).2 <= 4 * |vs| + UNIT_COST * TotalWeight(vs, ops)
  {
    RunIsCheap(FromSlice(vs), ops, b);
  }

  // ---- The limit is exact

  /** `n` times round: one out at the front, one in at the back. */
  function Rounds(n: nat): (ops: seq<Op>)
    ensures |ops| == 2 * n
  {
    if n == 0 then [] else Rounds(n - 1) + [Shift, Push(UNDEFINED)]
  }

  lemma RoundsSplit(n: nat)
    requires n > 0
    ensures var ops := Rounds(n); var k := |ops| - 1;
      ops[k] == Push(UNDEFINED) && ops[..k][..k - 1] == Rounds(n - 1) && ops[..k][k - 1] == Shift
  {
  }

  /** Going round keeps the length. */
  lemma {:induction false} RoundsLength(vs: seq<Elem>, n: nat)
    requires vs != []
    ensures |RunSeq(vs, Rounds(n)).0| == |vs| && LengthsWithin(vs, Rounds(n), |vs|)
  {
    if n > 0 {
      RoundsLength(vs, n - 1);
      RoundsSplit(n);
      var ops := Rounds(n)[..2 * n - 1];
      assert |RunSeq(vs, ops).0| == |vs| - 1;
      assert LengthsWithin(vs, ops, |vs|);
    }
  }

  /** A long enough queue never has dead slots enough to reclaim, so its head goes up. */
  lemma {:induction false} RoundsRaiseHead(vs: seq<Elem>, n: nat)
    requires |vs| == SHIFT_LIMIT && 0 < n < U32
    ensures Raised(Run(FromSlice(vs), Rounds(n)).0, n)
  {
    hide Storage.ShiftFront, Storage.PushBack, Storage.Contents;
    RoundsSplit(n);
    var s := Run(FromSlice(vs), Rounds(n - 1)).0;
    if n > 1 { RoundsRaiseHead(vs, n - 1); }
    RoundRaisesHead(s, n - 1);
    assert Run(FromSlice(vs), Rounds(n)[..2 * n - 1]).0 == s.ShiftFront().0;
  }

  ghost predicate Raised(s: Storage, n: nat) {
    s.Valid() && s.IsQueue() && s.head == n && |s.Contents()| == SHIFT_LIMIT
  }

  lemma RoundRaisesHead(s: Storage, n: nat)
    requires s.Valid() && |s.Contents()| == SHIFT_LIMIT && n + 1 < U32
    requires (s.OnHeap() && n == 0) || Raised(s, n)
    ensures var t := s.ShiftFront().0; t.Valid() && Raised(t.PushBack(UNDEFINED).0, n + 1)
  {
    ShiftRefines(s);
    var t := s.ShiftFront().0;
    assert t.IsQueue() && t.head == n + 1;
    PushRefines(t, UNDEFINED);
  }

  /** Such a queue's head wraps in the end, and the dead slots come back to life. */
  lemma LongQueueLosesTrack(vs: seq<Elem>)
    requires |vs| == SHIFT_LIMIT
    ensures var ops := Rounds(U32 - 1) + [Shift]; LengthsWithin(vs, ops, |vs|) && !RunsRight(vs, ops)
  {
    hide Rounds;
    var ops, before := Rounds(U32 - 1) + [Shift], Rounds(U32 - 1);
    assert ops[..|ops| - 1] == before;
    RoundsLength(vs, U32 - 1);
    RoundsRaiseHead(vs, U32 - 1);
    WrapLosesTrack(Run(FromSlice(vs), before).0);
  }

  /** Arrays of at most `b` elements behave as sequences, in every run from a fresh array
      whatever its length, exactly when `b` is below the limit. */
  lemma ArraysAreSequencesIff(b: nat)
    ensures (forall vs, ops | LengthsWithin(vs, ops, b) :: RunsRight(vs, ops)) <==> b < SHIFT_LIMIT
  {
    if b < SHIFT_LIMIT {
      forall vs, ops | LengthsWithin(vs, ops, b) ensures RunsRight(vs, ops) {
        StartWithin(vs, ops, b);
        FreshArrayIsCheap(vs, ops, b);
      }
    } else {
      var vs := Blanks(SHIFT_LIMIT);
      LongQueueLosesTrack(vs);
      LengthsGrow(vs, Rounds(U32 - 1) + [Shift], |vs|, b);
    }
  }

  lemma {:induction false} StartWithin(c: seq<Elem>, ops: seq<Op>, b: nat)
    requires LengthsWithin(c, ops, b)
    ensures |c| <= b
  {
    if ops != [] { StartWithin(c, ops[..|ops| - 1], b); }
  }

  lemma {:induction false} LengthsGrow(c: seq<Elem>, ops: seq<Op>, a: nat, b: nat)
    requires LengthsWithin(c, ops, a) && a <= b
    ensures LengthsWithin(c, ops, b)
  {
    if ops != [] { LengthsGrow(c, ops[..|ops| - 1], a, b); }
  }

  // ---- The object

  class ArrayElems {
    var elems: seq<Elem>
    var hasBuffer: bool
    var head: nat
    var inline: seq<Elem>
    var inlineLen: nat
    var side: bool

    function View(): Storage
      reads this
    {
      Storage(elems, hasBuffer, head, inline, inlineLen, side)
    }

    constructor (vs: seq<Elem>)
      ensures View() == FromSlice(vs) && View().Valid() && View().Contents() == vs
    {
      if |vs| <= INLINE_CAP {
        elems, hasBuffer, inline, inlineLen := [], false, vs + Blanks(INLINE_CAP - |vs|), |vs|;
      } else {
        elems, hasBuffer, inline, inlineLen := vs, true, Blanks(INLINE_CAP), ON_HEAP;
      }
      head, side := 0, false;
    }

    method Spill()
      requires View().Valid()
      modifies this
      ensures View() == old(View()).Spilled().0
    {
      if inlineLen == ON_HEAP { return; }
      if inlineLen == 0 && hasBuffer {
        elems := elems[head..];
        head := 0;
        inlineLen := ON_HEAP;
        return;
      }
      elems, hasBuffer := inline[..inlineLen], true;
      inline, inlineLen := Blanks(INLINE_CAP), ON_HEAP;
    }

    method ShiftFront() returns (r: Option<Elem>)
      requires View().Valid()
      modifies this
      ensures (View(), r) == (old(View()).ShiftFront().0, old(View()).ShiftFront().1)
    {
      if View().Contents() == [] { return None; }
      if !View().IsQueue() {
        if inlineLen != ON_HEAP || |elems| < QUEUE_MIN || |elems| >= U32 {
          SpilledRefines(View());
          Spill();
          r := Some(elems[0]);
          elems := elems[1..];
          return;
        }
        inlineLen, head, side := 0, 0, true;
      }
      r := Some(elems[head]);
      elems := elems[head := UNDEFINED];
      head := (head + 1) % U32;
      if head >= 2 * (|elems| - head) + QUEUE_MIN {
        elems := elems[head..];
        head := 0;
      }
    }

    method UnshiftFront(vs: seq<Elem>)
      requires View().Valid()
      modifies this
      ensures View() == old(View()).UnshiftFront(vs).0
      ensures View().Valid() && View().Contents() == vs + old(View().Contents())
    {
      UnshiftRefines(View(), vs);
      var n := |vs|;
      if n == 0 { return; }
      if View().IsQueue() && head >= n {
        elems := elems[..head - n] + vs + elems[head..];
        head := head - n;
        return;
      }
      var total := |View().Contents()| + n;
      if total < QUEUE_MIN || total + total >= U32 {
        Spill();
        elems := vs + elems;
        return;
      }
      elems := Blanks(total) + vs + View().Contents();
      hasBuffer, inline, inlineLen, head, side := true, Blanks(INLINE_CAP), 0, total, true;
    }

    method PushBack(v: Elem)
      requires View().Valid()
      modifies this
      ensures View() == old(View()).PushBack(v).0
      ensures View().Valid() && View().Contents() == old(View().Contents()) + [v]
    {
      PushRefines(View(), v);
      if !View().IsQueue() { Spill(); }
      elems := elems + [v];
    }

    method ExtendBack(vs: seq<Elem>)
      requires View().Valid()
      modifies this
      ensures View() == old(View()).ExtendBack(vs).0
      ensures View().Valid() && View().Contents() == old(View().Contents()) + vs
    {
      ExtendRefines(View(), vs);
      if !View().IsQueue() { Spill(); }
      elems := elems + vs;
    }

    method PopBack() returns (r: Option<Elem>)
      requires View().Valid()
      modifies this
      ensures (View(), r) == (old(View()).PopBack().0, old(View()).PopBack().1)
      ensures View().Valid() && r.Some? == (old(View().Contents()) != [])
      ensures r.Some? ==> View().Contents() + [r.value] == old(View().Contents())
    {
      PopTakesLast(View());
      if !View().IsQueue() { Spill(); }
      if View().Empty() { return None; }
      r := Some(elems[|elems| - 1]);
      elems := elems[..|elems| - 1];
    }

    method SpliceAt(start: nat, delete: nat, vs: seq<Elem>) returns (removed: seq<Elem>)
      requires View().Valid()
      modifies this
      ensures (View(), removed)
        == (old(View()).SpliceAt(start, delete, vs).0, old(View()).SpliceAt(start, delete, vs).1)
    {
      Spill();
      var end := if start + delete <= |elems| then start + delete else |elems|;
      var from := if start <= end then start else end;
      removed := elems[from..end];
      elems := elems[..from] + vs + elems[end..];
    }
  }
}
