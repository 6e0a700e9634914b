/** The pool allocator as threads taking steps: each step is one locked section of the stash,
    with the thread's own work around it. */
module PoolRuns {
  import opened Wrappers
  import opened FreeLists

  const GRAN: nat := 16
  const MAX_SMALL: nat := 1024
  const NCLASS: nat := 64
  const ARENA: nat := 262_144
  const SPILL_BYTES: nat := 4_194_304
  const SPARE_MIN: nat := MAX_SMALL
  const USIZE: nat := 0x1_0000_0000_0000_0000

  /** `class_size`. */
  function Size(c: nat): nat { (c + 1) * GRAN }

  /** `small_class`: the class of a request, if the pool serves it. */
  function SmallClass(size: nat, align: nat): Option<nat>
    requires size < USIZE
  {
    var c := (size + USIZE - 1) % USIZE / GRAN;
    if c < NCLASS && align <= GRAN then Some(c) else None
  }

  /** The pool serves requests of 1 to 1024 bytes aligned to 16 or less, each from the smallest
      class that fits. */
  lemma SmallClassFits(size: nat, align: nat)
    requires size < USIZE
    ensures SmallClass(size, align).Some? <==> 1 <= size <= MAX_SMALL && align <= GRAN
    ensures SmallClass(size, align).Some? ==>
      var c := SmallClass(size, align).value; c < NCLASS && Size(c) - GRAN < size <= Size(c)
  {
  }

  datatype Region = Region(start: Addr, end: Addr)
  datatype Block = Block(addr: Addr, c: nat)
  datatype CacheState = Uninit | Init | Live | Dead

  /** An allocation under way, of class `c`. */
  datatype Call = Slow(c: nat) | Registering(c: nat) | Refill(c: nat) | Carve(c: nat) | NeedChunk(c: nat)
                | Uncached(c: nat) | NeedBlock(c: nat)

  /** A thread's cache, and its calls, innermost last. */
  datatype Thread = Thread(lists: seq<seq<Addr>>, limit: seq<nat>, bump: Addr, end: Addr, state: CacheState,
      calls: seq<Call>)

  /** `abandoned` are arena tails nobody will use; `obtained` is everything the system gave. */
  datatype Pool = Pool(threads: seq<Thread>, stash: seq<seq<Addr>>, spare: seq<Region>, live: seq<Block>,
                       abandoned: seq<Region>, obtained: seq<Region>)

  // ---- How often an address is held

  function In(a: Addr, b: Addr, x: Addr): nat { if a <= x < b then 1 else 0 }

  function InBlocks(blocks: seq<Addr>, size: nat, x: Addr): nat {
    if blocks == [] then 0 else In(blocks[0], blocks[0] + size, x) + InBlocks(blocks[1..], size, x)
  }

  /** The blocks of list `c` are of class `c`. */
  function InLists(lists: seq<seq<Addr>>, x: Addr): nat {
    if lists == [] then 0
    else InLists(lists[..|lists| - 1], x) + InBlocks(lists[|lists| - 1], Size(|lists| - 1), x)
  }

  function InThread(t: Thread, x: Addr): nat { InLists(t.lists, x) + In(t.bump, t.end, x) }

  function InThreads(ts: seq<Thread>, x: Addr): nat {
    if ts == [] then 0 else InThreads(ts[..|ts| - 1], x) + InThread(ts[|ts| - 1], x)
  }

  function InRegions(rs: seq<Region>, x: Addr): nat {
    if rs == [] then 0 else In(rs[0].start, rs[0].end, x) + InRegions(rs[1..], x)
  }

  function InLive(live: seq<Block>, x: Addr): nat {
    if live == [] then 0
    else
      var b := live[|live| - 1];
      InLive(live[..|live| - 1], x) + In(b.addr, b.addr + Size(b.c), x)
  }

  function Held(s: Pool, x: Addr): nat {
    InThreads(s.threads, x) + InLists(s.stash, x) + InRegions(s.spare, x) + InLive(s.live, x)
      + InRegions(s.abandoned, x)
  }

  /** Every byte the system gave is in exactly one place, and no other byte is anywhere. */
  ghost predicate Conserved(s: Pool) {
    forall x :: Held(s, x) == InRegions(s.obtained, x) <= 1
  }

  // ---- Well-formed pieces

  predicate Aligned(a: Addr) { a % GRAN == 0 && a != 0 }

  ghost predicate ListsOk(lists: seq<seq<Addr>>) {
    |lists| == NCLASS && forall c, i | 0 <= c < NCLASS && 0 <= i < |lists[c]| :: Aligned(lists[c][i])
  }

  ghost predicate CallOk(c: Call) { c.c < NCLASS }

  /** A slow allocation of class `c` finds its list empty; only a live cache is refilled. */
  ghost predicate TopOk(t: Thread)
    requires t.calls != []
  {
    var call := t.calls[|t.calls| - 1];
    && (call.Slow? || call.Refill? || call.Carve? || call.NeedChunk? ==> call.c < |t.lists| && t.lists[call.c] == [])
    && (call.Refill? || call.Carve? || call.NeedChunk? ==> t.state == Live)
  }

  ghost predicate ThreadOk(t: Thread) {
    && ListsOk(t.lists) && |t.limit| == NCLASS
    && t.bump <= t.end && t.bump % GRAN == 0 && t.end % GRAN == 0 && (t.bump < t.end ==> t.bump != 0)
    && (forall i | 0 <= i < |t.calls| :: CallOk(t.calls[i]))
    && (t.state != Live ==>
          (forall c | 0 <= c < NCLASS :: t.lists[c] == [] && t.limit[c] == 0) && t.bump == t.end)
    && (t.calls != [] ==> TopOk(t))
    && (forall i | 0 <= i < |t.calls| - 1 :: t.calls[i].Registering?)
  }

  ghost predicate SpareOk(r: Region) {
    Aligned(r.start) && r.end % GRAN == 0 && r.start + SPARE_MIN <= r.end
  }

  ghost predicate BlockOk(b: Block) { b.c < NCLASS && Aligned(b.addr) }

  ghost predicate Valid(s: Pool) {
    && Conserved(s)
    && (forall t | 0 <= t < |s.threads| :: ThreadOk(s.threads[t]))
    && ListsOk(s.stash)
    && (forall i | 0 <= i < |s.spare| :: SpareOk(s.spare[i]))
    && (forall i | 0 <= i < |s.live| :: BlockOk(s.live[i]))
  }

  // ---- Steps

  datatype Step =
    | Spawn
    | Alloc(t: nat, c: nat)
    | Enter(t: nat)
    | Registered(t: nat, ok: bool)
    | DoRefill(t: nat, sawStash: bool)
    | DoCarve(t: nat)
    | Chunk(t: nat, p: Option<Addr>)
    | DoUncached(t: nat)
    | SystemBlock(t: nat, p: Option<Addr>)
    | Free(t: nat, i: nat)
    | Exit(t: nat)

  const NoLists: seq<seq<Addr>> := Repeat([], NCLASS)

  function Repeat<T>(x: T, n: nat): (s: seq<T>)
    ensures |s| == n && forall i | 0 <= i < n :: s[i] == x
  {
    if n == 0 then [] else Repeat(x, n - 1) + [x]
  }

  const NewThread: Thread := Thread(NoLists, Repeat(0, NCLASS), 0, 0, Uninit, [])

  /** `SPILL_BYTES / class_size(k)` each. */
  function Limits(n: nat): (s: seq<nat>)
    ensures |s| == n
  {
    if n == 0 then [] else Limits(n - 1) + [SPILL_BYTES / Size(n - 1)]
  }

  /** A thread may be asked for something between calls, and by the registration of its exit
      hook. */
  predicate Open(t: Thread) { t.calls == [] || t.calls[|t.calls| - 1].Registering? }

  function Return(t: Thread): Thread
    requires t.calls != []
  {
    t.(calls := t.calls[..|t.calls| - 1])
  }

  function Goto(t: Thread, call: Call): Thread
    requires t.calls != []
  {
    t.(calls := t.calls[..|t.calls| - 1] + [call])
  }

  /** Memory the system has not given before, aligned. */
  ghost predicate Fresh(s: Pool, p: Addr, size: nat) {
    Aligned(p) && forall x | p <= x < p + size :: InRegions(s.obtained, x) == 0
  }

  ghost predicate Allowed(s: Pool, step: Step) {
    match step
    case Spawn => true
    case Alloc(t, c) => t < |s.threads| && Open(s.threads[t]) && c < NCLASS
    case Enter(t) => t < |s.threads| && s.threads[t].calls != [] && Last(s.threads[t]).Slow?
    case Registered(t, _) => t < |s.threads| && s.threads[t].calls != [] && Last(s.threads[t]).Registering?
                             && s.threads[t].state == Init
    case DoRefill(t, _) => t < |s.threads| && s.threads[t].calls != [] && Last(s.threads[t]).Refill?
    case DoCarve(t) => t < |s.threads| && s.threads[t].calls != [] && Last(s.threads[t]).Carve?
    case Chunk(t, p) => t < |s.threads| && s.threads[t].calls != [] && Last(s.threads[t]).NeedChunk?
                        && (p.Some? ==> Fresh(s, p.value, ARENA))
    case DoUncached(t) => t < |s.threads| && s.threads[t].calls != [] && Last(s.threads[t]).Uncached?
    case SystemBlock(t, p) => t < |s.threads| && s.threads[t].calls != [] && Last(s.threads[t]).NeedBlock?
                              && (p.Some? ==> Fresh(s, p.value, Size(Last(s.threads[t]).c)))
    case Free(t, i) => t < |s.threads| && Open(s.threads[t]) && i < |s.live|
    case Exit(t) => t < |s.threads| && s.threads[t].calls == [] && s.threads[t].state == Live
  }

  function Last(t: Thread): Call
    requires t.calls != []
  {
    t.calls[|t.calls| - 1]
  }

  function With(s: Pool, t: nat, th: Thread): Pool
    requires t < |s.threads|
  {
    s.(threads := s.threads[t := th])
  }

  /** A block handed to the program. */
  function Give(s: Pool, p: Addr, c: nat): Pool { s.(live := s.live + [Block(p, c)]) }

  ghost function Apply(s: Pool, step: Step): Pool
    requires Valid(s) && Allowed(s, step)
  {
    match step
    case Spawn => s.(threads := s.threads + [NewThread])
    case Alloc(t, c) =>
      var th := s.threads[t];
      assert ThreadOk(th);
      if th.lists[c] == [] then With(s, t, th.(calls := th.calls + [Slow(c)]))
      else Give(With(s, t, th.(lists := th.lists[c := th.lists[c][1..]])), th.lists[c][0], c)
    case Enter(t) =>
      var th := s.threads[t];
      var c := Last(th).c;
      With(s, t,
        match th.state
        case Live => Goto(th, Refill(c))
        case Uninit => Goto(th, Registering(c)).(state := Init)
        case _ => Goto(th, Uncached(c)))
    case Registered(t, ok) =>
      var th := s.threads[t];
      var c := Last(th).c;
      With(s, t,
        if ok then Goto(th, Refill(c)).(state := Live, limit := Limits(NCLASS))
        else Goto(th, Uncached(c)).(state := Dead))
    case DoRefill(t, sawStash) => Refilled(s, t, sawStash)
    case DoCarve(t) => Carved(s, t)
    case Chunk(t, p) =>
      var th := s.threads[t];
      var left := s.(abandoned := [Region(th.bump, th.end)] + s.abandoned);
      if p.None? then With(left, t, Return(th).(bump := 0, end := 0))
      else
        With(left.(obtained := [Region(p.value, p.value + ARENA)] + s.obtained), t,
          Goto(th, Carve(Last(th).c)).(bump := p.value, end := p.value + ARENA))
    case DoUncached(t) =>
      var th := s.threads[t];
      var c := Last(th).c;
      assert ThreadOk(th) && CallOk(th.calls[|th.calls| - 1]);
      if s.stash[c] == [] then With(s, t, Goto(th, NeedBlock(c)))
      else Give(With(s, t, Return(th)).(stash := s.stash[c := s.stash[c][1..]]), s.stash[c][0], c)
    case SystemBlock(t, p) =>
      var th := s.threads[t];
      var c := Last(th).c;
      if p.None? then With(s, t, Return(th))
      else
        Give(With(s, t, Return(th)).(obtained := [Region(p.value, p.value + Size(c))] + s.obtained), p.value, c)
    case Free(t, i) => Freed(s, t, i)
    case Exit(t) => TornDown(s, t)
  }

  /** `try_bump`, or the start of `refill`: a stale flag may be seen either way. */
  ghost function Refilled(s: Pool, t: nat, sawStash: bool): Pool
    requires Valid(s) && Allowed(s, DoRefill(t, sawStash))
  {
    var th := s.threads[t];
    var c := Last(th).c;
    assert ThreadOk(th) && CallOk(th.calls[|th.calls| - 1]);
    if !sawStash && th.end - th.bump >= Size(c) then
      Give(With(s, t, Return(th).(bump := th.bump + Size(c))), th.bump, c)
    else if sawStash && s.stash[c] != [] then
      Give(With(s, t, Return(th).(lists := th.lists[c := s.stash[c][1..]])).(stash := s.stash[c := []]),
        s.stash[c][0], c)
    else With(s, t, Goto(th, Carve(c)))
  }

  /** The loop of `refill`, and the part of `new_arena` under the lock. */
  ghost function Carved(s: Pool, t: nat): Pool
    requires Valid(s) && Allowed(s, DoCarve(t))
  {
    var th := s.threads[t];
    var c := Last(th).c;
    if th.end - th.bump >= Size(c) then
      Give(With(s, t, Return(th).(bump := th.bump + Size(c))), th.bump, c)
    else if s.spare != [] then
      With(s, t, th.(bump := s.spare[0].start, end := s.spare[0].end))
        .(spare := s.spare[1..], abandoned := [Region(th.bump, th.end)] + s.abandoned)
    else With(s, t, Goto(th, NeedChunk(c)))
  }

  /** `dealloc_class` and `dealloc_slow`. */
  ghost function Freed(s: Pool, t: nat, i: nat): Pool
    requires Valid(s) && Allowed(s, Free(t, i))
  {
    var th := s.threads[t];
    var b := s.live[i];
    assert BlockOk(b) && ThreadOk(th);
    var c := b.c;
    var gone := s.(live := s.live[..i] + s.live[i + 1..]);
    if |th.lists[c]| < th.limit[c] then
      With(gone, t, th.(lists := th.lists[c := [b.addr] + th.lists[c]]))
    else if th.state != Live then
      gone.(stash := s.stash[c := [b.addr] + s.stash[c]])
    else
      With(gone, t, th.(lists := th.lists[c := []]))
        .(stash := s.stash[c := [b.addr] + th.lists[c] + s.stash[c]])
  }

  /** Each of `lists` in front of the stash's. */
  function Joined(lists: seq<seq<Addr>>, stash: seq<seq<Addr>>): (r: seq<seq<Addr>>)
    requires |lists| == |stash|
    ensures |r| == |stash| && forall c | 0 <= c < |r| :: r[c] == lists[c] + stash[c]
  {
    if lists == [] then []
    else Joined(lists[..|lists| - 1], stash[..|stash| - 1]) + [lists[|lists| - 1] + stash[|stash| - 1]]
  }

  /** `tear_down`. */
  ghost function TornDown(s: Pool, t: nat): Pool
    requires Valid(s) && Allowed(s, Exit(t))
  {
    var th := s.threads[t];
    assert ThreadOk(th);
    var rest := Region(th.bump, th.end);
    var s1 := With(s, t, th.(lists := NoLists, limit := Repeat(0, NCLASS), bump := 0, end := 0, state := Dead))
      .(stash := Joined(th.lists, s.stash));
    if th.end - th.bump >= SPARE_MIN then s1.(spare := [rest] + s.spare) else s1.(abandoned := [rest] + s.abandoned)
  }

  // ---- Moving between places

  lemma {:induction false} BlocksAppend(a: seq<Addr>, b: seq<Addr>, size: nat, x: Addr)
    ensures InBlocks(a + b, size, x) == InBlocks(a, size, x) + InBlocks(b, size, x)
  {
    if a == [] {
      assert a + b == b;
    } else {
      BlocksAppend(a[1..], b, size, x);
      assert (a + b)[1..] == a[1..] + b;
    }
  }

  lemma FirstBlock(blocks: seq<Addr>, size: nat, x: Addr)
    requires blocks != []
    ensures InBlocks(blocks, size, x) == In(blocks[0], blocks[0] + size, x) + InBlocks(blocks[1..], size, x)
  {
  }

  lemma ConsBlock(a: Addr, blocks: seq<Addr>, size: nat, x: Addr)
    ensures InBlocks([a] + blocks, size, x) == In(a, a + size, x) + InBlocks(blocks, size, x)
  {
    assert ([a] + blocks)[1..] == blocks;
  }

  lemma {:induction false} ListsUpdate(lists: seq<seq<Addr>>, c: nat, blocks: seq<Addr>, x: Addr)
    requires c < |lists|
    ensures InLists(lists[c := blocks], x) + InBlocks(lists[c], Size(c), x)
         == InLists(lists, x) + InBlocks(blocks, Size(c), x)
  {
    hide InBlocks;
    var n := |lists| - 1;
    if c == n {
      assert lists[c := blocks][..n] == lists[..n];
    } else {
      ListsUpdate(lists[..n], c, blocks, x);
      assert lists[c := blocks][..n] == lists[..n][c := blocks];
    }
  }

  lemma {:induction false} ThreadsUpdate(ts: seq<Thread>, t: nat, th: Thread, x: Addr)
    requires t < |ts|
    ensures InThreads(ts[t := th], x) + InThread(ts[t], x) == InThreads(ts, x) + InThread(th, x)
  {
    hide InThread;
    var n := |ts| - 1;
    if t == n {
      assert ts[t := th][..n] == ts[..n];
    } else {
      ThreadsUpdate(ts[..n], t, th, x);
      assert ts[t := th][..n] == ts[..n][t := th];
    }
  }

  lemma LivePush(live: seq<Block>, b: Block, x: Addr)
    ensures InLive(live + [b], x) == InLive(live, x) + In(b.addr, b.addr + Size(b.c), x)
  {
    assert (live + [b])[..|live|] == live;
  }

  lemma {:induction false} LiveRemove(live: seq<Block>, i: nat, x: Addr)
    requires i < |live|
    ensures InLive(live[..i] + live[i + 1..], x) + In(live[i].addr, live[i].addr + Size(live[i].c), x)
      == InLive(live, x)
  {
    var n := |live| - 1;
    var gone := live[..i] + live[i + 1..];
    if i == n {
      assert gone == live[..n];
    } else {
      LiveRemove(live[..n], i, x);
      assert gone[..n - 1] == live[..n][..i] + live[..n][i + 1..] && gone[n - 1] == live[n];
    }
  }

  lemma RegionCons(r: Region, rs: seq<Region>, x: Addr)
    ensures InRegions([r] + rs, x) == In(r.start, r.end, x) + InRegions(rs, x)
  {
    assert ([r] + rs)[1..] == rs;
  }

  lemma {:induction false} JoinedCount(a: seq<seq<Addr>>, b: seq<seq<Addr>>, x: Addr)
    requires |a| == |b|
    ensures InLists(Joined(a, b), x) == InLists(a, x) + InLists(b, x)
  {
    hide InBlocks;
    if a != [] {
      var n := |a| - 1;
      JoinedCount(a[..n], b[..n], x);
      BlocksAppend(a[n], b[n], Size(n), x);
      assert Joined(a, b)[..n] == Joined(a[..n], b[..n]);
    }
  }

  lemma {:induction false} NothingListed(lists: seq<seq<Addr>>, x: Addr)
    requires forall c | 0 <= c < |lists| :: lists[c] == []
    ensures InLists(lists, x) == 0
  {
    if lists != [] { NothingListed(lists[..|lists| - 1], x); }
  }

  lemma SpawnedThread(x: Addr)
    ensures InThread(NewThread, x) == 0 && ThreadOk(NewThread)
  {
    NothingListed(NoLists, x);
  }

  // ---- Every step

  lemma SpawnKeeps(s: Pool)
    requires Valid(s)
    ensures Valid(Apply(s, Spawn))
  {
    var s' := Apply(s, Spawn);
    SpawnedThread(0);
    forall x ensures Held(s', x) == Held(s, x) {
      SpawnedThread(x);
      assert s'.threads[..|s.threads|] == s.threads;
    }
  }

  lemma AllocKeeps(s: Pool, t: nat, c: nat)
    requires Valid(s) && Allowed(s, Alloc(t, c))
    ensures Valid(Apply(s, Alloc(t, c)))
  {
    hide InBlocks, InLists, InLive, InThreads, InRegions, In;
    var s', th := Apply(s, Alloc(t, c)), s.threads[t];
    assert ThreadOk(th);
    forall x ensures Held(s', x) == Held(s, x) {
      ThreadsUpdate(s.threads, t, s'.threads[t], x);
      if th.lists[c] != [] {
        ListsUpdate(th.lists, c, th.lists[c][1..], x);
        FirstBlock(th.lists[c], Size(c), x);
        LivePush(s.live, Block(th.lists[c][0], c), x);
      }
    }
  }

  lemma EnterKeeps(s: Pool, t: nat)
    requires Valid(s) && Allowed(s, Enter(t))
    ensures Valid(Apply(s, Enter(t)))
  {
    hide InBlocks, InLists, InLive, InThreads, InRegions, In;
    var s', th := Apply(s, Enter(t)), s.threads[t];
    assert ThreadOk(th) && CallOk(Last(th));
    forall x ensures Held(s', x) == Held(s, x) { ThreadsUpdate(s.threads, t, s'.threads[t], x); }
  }

  lemma RegisteredKeeps(s: Pool, t: nat, ok: bool)
    requires Valid(s) && Allowed(s, Registered(t, ok))
    ensures Valid(Apply(s, Registered(t, ok)))
  {
    hide InBlocks, InLists, InLive, InThreads, InRegions, In;
    var s', th := Apply(s, Registered(t, ok)), s.threads[t];
    assert ThreadOk(th) && CallOk(Last(th));
    forall x ensures Held(s', x) == Held(s, x) { ThreadsUpdate(s.threads, t, s'.threads[t], x); }
  }

  /** A block off the front of a region leaves the rest. */
  lemma Split(a: Addr, b: Addr, e: Addr, x: Addr)
    requires a <= b <= e
    ensures In(a, e, x) == In(a, b, x) + In(b, e, x)
  {
  }

  /** Carving, in `try_bump` and in `refill` alike. */
  lemma BumpKeeps(s: Pool, t: nat)
    requires Valid(s) && t < |s.threads| && s.threads[t].calls != []
    requires Last(s.threads[t]).Refill? || Last(s.threads[t]).Carve?
    requires s.threads[t].end - s.threads[t].bump >= Size(Last(s.threads[t]).c)
    ensures var th := s.threads[t]; var c := Last(th).c;
      Valid(Give(With(s, t, Return(th).(bump := th.bump + Size(c))), th.bump, c))
  {
    hide InBlocks, InLists, InLive, InThreads, InRegions, In;
    var th := s.threads[t];
    var c := Last(th).c;
    var s' := Give(With(s, t, Return(th).(bump := th.bump + Size(c))), th.bump, c);
    assert ThreadOk(th) && CallOk(Last(th));
    forall x ensures Held(s', x) == Held(s, x) {
      ThreadsUpdate(s.threads, t, s'.threads[t], x);
      Split(th.bump, th.bump + Size(c), th.end, x);
      LivePush(s.live, Block(th.bump, c), x);
    }
    AlignedStep(th.bump, c);
    assert ThreadOk(s'.threads[t]);
  }

  lemma AlignedStep(a: Addr, c: nat)
    ensures a % GRAN == 0 ==> (a + Size(c)) % GRAN == 0
  {
  }

  lemma StealKeeps(s: Pool, t: nat)
    requires Valid(s) && Allowed(s, DoRefill(t, true))
    ensures Valid(Refilled(s, t, true))
  {
    hide InBlocks, InLists, InLive, InThreads, InRegions, In;
    var s', th := Refilled(s, t, true), s.threads[t];
    assert ThreadOk(th) && CallOk(Last(th));
    var c := Last(th).c;
    forall x ensures Held(s', x) == Held(s, x) {
      ThreadsUpdate(s.threads, t, s'.threads[t], x);
      if s.stash[c] != [] {
        ListsUpdate(th.lists, c, s.stash[c][1..], x);
        ListsUpdate(s.stash, c, [], x);
        FirstBlock(s.stash[c], Size(c), x);
        NoBlocks(Size(c), x);
        LivePush(s.live, Block(s.stash[c][0], c), x);
      }
    }
    assert ThreadOk(s'.threads[t]);
  }

  lemma NoBlocks(size: nat, x: Addr)
    ensures InBlocks([], size, x) == 0
  {
  }

  lemma RefillKeeps(s: Pool, t: nat, sawStash: bool)
    requires Valid(s) && Allowed(s, DoRefill(t, sawStash))
    ensures Valid(Apply(s, DoRefill(t, sawStash)))
  {
    hide Valid, InThreads, InLists, InLive, InRegions, InBlocks;
    if sawStash {
      StealKeeps(s, t);
    } else if s.threads[t].end - s.threads[t].bump >= Size(Last(s.threads[t]).c) {
      BumpKeeps(s, t);
    } else {
      GotoKeeps(s, t, Carve(Last(s.threads[t]).c));
    }
  }

  /** Only the call changes. */
  lemma GotoKeeps(s: Pool, t: nat, call: Call)
    requires Valid(s) && t < |s.threads| && s.threads[t].calls != [] && call.c == Last(s.threads[t]).c
    requires Last(s.threads[t]).Refill? || Last(s.threads[t]).Carve? || call.Uncached? || call.NeedBlock?
    ensures Valid(With(s, t, Goto(s.threads[t], call)))
  {
    hide InBlocks, InLists, InLive, InThreads, InRegions, In;
    var th := s.threads[t];
    var s' := With(s, t, Goto(th, call));
    assert ThreadOk(th) && CallOk(Last(th));
    forall x ensures Held(s', x) == Held(s, x) { ThreadsUpdate(s.threads, t, s'.threads[t], x); }
    assert ThreadOk(s'.threads[t]);
  }

  lemma CarveKeeps(s: Pool, t: nat)
    requires Valid(s) && Allowed(s, DoCarve(t))
    ensures Valid(Apply(s, DoCarve(t)))
  {
    hide Valid, InThreads, InLists, InLive, InRegions, InBlocks;
    var th := s.threads[t];
    if th.end - th.bump >= Size(Last(th).c) {
      BumpKeeps(s, t);
    } else if s.spare == [] {
      GotoKeeps(s, t, NeedChunk(Last(th).c));
    } else {
      TakeSpareKeeps(s, t);
    }
  }

  lemma TakeSpareKeeps(s: Pool, t: nat)
    requires Valid(s) && Allowed(s, DoCarve(t)) && s.spare != []
    requires s.threads[t].end - s.threads[t].bump < Size(Last(s.threads[t]).c)
    ensures Valid(Carved(s, t))
  {
    hide InBlocks, InLists, InLive, InThreads, InRegions, In;
    var s', th := Carved(s, t), s.threads[t];
    assert ThreadOk(th) && CallOk(Last(th)) && SpareOk(s.spare[0]);
    forall x ensures Held(s', x) == Held(s, x) {
      ThreadsUpdate(s.threads, t, s'.threads[t], x);
      RegionCons(s.spare[0], s.spare[1..], x);
      assert s.spare == [s.spare[0]] + s.spare[1..];
      RegionCons(Region(th.bump, th.end), s.abandoned, x);
    }
    assert ThreadOk(s'.threads[t]);
  }

  lemma ChunkKeeps(s: Pool, t: nat, p: Option<Addr>)
    requires Valid(s) && Allowed(s, Chunk(t, p))
    ensures Valid(Apply(s, Chunk(t, p)))
  {
    hide InBlocks, InLists, InLive, InThreads, InRegions;
    var s', th := Apply(s, Chunk(t, p)), s.threads[t];
    assert ThreadOk(th) && CallOk(Last(th));
    forall x ensures Held(s', x) == InRegions(s'.obtained, x) <= 1 {
      ThreadsUpdate(s.threads, t, s'.threads[t], x);
      RegionCons(Region(th.bump, th.end), s.abandoned, x);
      assert Held(s, x) == InRegions(s.obtained, x) <= 1;
      if p.Some? { RegionCons(Region(p.value, p.value + ARENA), s.obtained, x); }
    }
    assert ThreadOk(s'.threads[t]);
  }

  lemma UncachedKeeps(s: Pool, t: nat)
    requires Valid(s) && Allowed(s, DoUncached(t))
    ensures Valid(Apply(s, DoUncached(t)))
  {
    hide InBlocks, InLists, InLive, InThreads, InRegions, In;
    var s', th := Apply(s, DoUncached(t)), s.threads[t];
    assert ThreadOk(th) && CallOk(Last(th));
    var c := Last(th).c;
    forall x ensures Held(s', x) == Held(s, x) {
      ThreadsUpdate(s.threads, t, s'.threads[t], x);
      if s.stash[c] != [] {
        ListsUpdate(s.stash, c, s.stash[c][1..], x);
        FirstBlock(s.stash[c], Size(c), x);
        LivePush(s.live, Block(s.stash[c][0], c), x);
      }
    }
    assert ThreadOk(s'.threads[t]);
  }

  lemma SystemBlockKeeps(s: Pool, t: nat, p: Option<Addr>)
    requires Valid(s) && Allowed(s, SystemBlock(t, p))
    ensures Valid(Apply(s, SystemBlock(t, p)))
  {
    hide InBlocks, InLists, InLive, InThreads, InRegions;
    var s', th := Apply(s, SystemBlock(t, p)), s.threads[t];
    assert ThreadOk(th) && CallOk(Last(th));
    var c := Last(th).c;
    forall x ensures Held(s', x) == InRegions(s'.obtained, x) <= 1 {
      ThreadsUpdate(s.threads, t, s'.threads[t], x);
      assert Held(s, x) == InRegions(s.obtained, x) <= 1;
      if p.Some? {
        RegionCons(Region(p.value, p.value + Size(c)), s.obtained, x);
        LivePush(s.live, Block(p.value, c), x);
      }
    }
    assert ThreadOk(s'.threads[t]);
  }

  lemma FreeKeeps(s: Pool, t: nat, i: nat)
    requires Valid(s) && Allowed(s, Free(t, i))
    ensures Valid(Apply(s, Free(t, i)))
  {
    hide InBlocks, InLists, InLive, InThreads, InRegions, In;
    var s', th := Freed(s, t, i), s.threads[t];
    var b := s.live[i];
    var c := b.c;
    assert ThreadOk(th) && BlockOk(b);
    forall x ensures Held(s', x) == Held(s, x) {
      ThreadsUpdate(s.threads, t, s'.threads[t], x);
      LiveRemove(s.live, i, x);
      ConsBlock(b.addr, th.lists[c], Size(c), x);
      ConsBlock(b.addr, s.stash[c], Size(c), x);
      BlocksAppend([b.addr] + th.lists[c], s.stash[c], Size(c), x);
      NoBlocks(Size(c), x);
      ListsUpdate(th.lists, c, [b.addr] + th.lists[c], x);
      ListsUpdate(th.lists, c, [], x);
      ListsUpdate(s.stash, c, s'.stash[c], x);
      assert s.stash[c := s.stash[c]] == s.stash;
      assert s.threads[t := th] == s.threads;
    }
    assert ThreadOk(s'.threads[t]);
  }

  lemma ExitKeeps(s: Pool, t: nat)
    requires Valid(s) && Allowed(s, Exit(t))
    ensures Valid(Apply(s, Exit(t)))
  {
    hide InBlocks, InLists, InLive, InThreads, InRegions, In;
    var s', th := TornDown(s, t), s.threads[t];
    assert ThreadOk(th);
    forall x ensures Held(s', x) == Held(s, x) {
      ThreadsUpdate(s.threads, t, s'.threads[t], x);
      JoinedCount(th.lists, s.stash, x);
      NothingListed(NoLists, x);
      NoBytes(x);
      RegionCons(Region(th.bump, th.end), s.spare, x);
      RegionCons(Region(th.bump, th.end), s.abandoned, x);
    }
    assert ThreadOk(s'.threads[t]);
  }

  lemma NoBytes(x: Addr)
    ensures In(0, 0, x) == 0
  {
  }

  /** Whatever step is taken by whichever thread, every byte stays in exactly one place. */
  lemma StepKeeps(s: Pool, step: Step)
    requires Valid(s) && Allowed(s, step)
    ensures Valid(Apply(s, step))
  {
    hide *;
    match step
    case Spawn => SpawnKeeps(s);
    case Alloc(t, c) => AllocKeeps(s, t, c);
    case Enter(t) => EnterKeeps(s, t);
    case Registered(t, ok) => RegisteredKeeps(s, t, ok);
    case DoRefill(t, sawStash) => RefillKeeps(s, t, sawStash);
    case DoCarve(t) => CarveKeeps(s, t);
    case Chunk(t, p) => ChunkKeeps(s, t, p);
    case DoUncached(t) => UncachedKeeps(s, t);
    case SystemBlock(t, p) => SystemBlockKeeps(s, t, p);
    case Free(t, i) => FreeKeeps(s, t, i);
    case Exit(t) => ExitKeeps(s, t);
  }

  // ---- Runs

  const Start: Pool := Pool([], NoLists, [], [], [], [])

  ghost predicate AllowedRun(s: Pool, steps: seq<Step>)
    decreases |steps|
  {
    steps == [] || (Valid(s) && Allowed(s, steps[0]) && AllowedRun(Apply(s, steps[0]), steps[1..]))
  }

  ghost function Run(s: Pool, steps: seq<Step>): Pool
    requires AllowedRun(s, steps)
    decreases |steps|
  {
    if steps == [] then s else Run(Apply(s, steps[0]), steps[1..])
  }

  lemma {:induction false} RunKeeps(s: Pool, steps: seq<Step>)
    requires Valid(s) && AllowedRun(s, steps)
    ensures Valid(Run(s, steps))
    decreases |steps|
  {
    hide Valid, Apply, Allowed;
    if steps != [] {
      StepKeeps(s, steps[0]);
      RunKeeps(Apply(s, steps[0]), steps[1..]);
    }
  }

  lemma StartValid()
    ensures Valid(Start)
  {
    forall x ensures Held(Start, x) == 0 { NothingListed(NoLists, x); }
  }

  function InBlock(b: Block, x: Addr): nat { In(b.addr, b.addr + Size(b.c), x) }

  /** Byte `x` is in at most one block the program holds, and in no free one. */
  ghost predicate HeldOnce(s: Pool, i: nat, j: nat, x: Addr) {
    && (i < j < |s.live| ==> InBlock(s.live[i], x) == 0 || InBlock(s.live[j], x) == 0)
    && (j < |s.live| && InBlock(s.live[j], x) == 1 ==>
          InThreads(s.threads, x) == 0 && InLists(s.stash, x) == 0 && InRegions(s.spare, x) == 0)
  }

  lemma LiveHeldOnce(s: Pool, i: nat, j: nat, x: Addr)
    requires Conserved(s)
    ensures HeldOnce(s, i, j, x)
  {
    hide InThreads, InLists, InRegions, In, InLive;
    assert Held(s, x) <= 1;
    if j < |s.live| {
      LiveRemove(s.live, j, x);
      if i < j {
        var gone := s.live[..j] + s.live[j + 1..];
        assert gone[i] == s.live[i];
        LiveRemove(gone, i, x);
      }
    }
  }

  /** In every interleaving, no two blocks the program holds overlap, no byte of one is on a
      free list, in an arena or spare, and every byte ever obtained from the system is in
      exactly one place. */
  lemma BlocksNeverOverlap(steps: seq<Step>, i: nat, j: nat, x: Addr)
    requires AllowedRun(Start, steps)
    ensures var s := Run(Start, steps);
      Conserved(s) && HeldOnce(s, i, j, x) && (j < |s.live| ==> BlockOk(s.live[j]))
  {
    StartValid();
    RunKeeps(Start, steps);
    var s := Run(Start, steps);
    assert j < |s.live| ==> BlockOk(s.live[j]);
    LiveHeldOnce(s, i, j, x);
    hide *;
  }

  // ---- The links stay intact

  lemma {:induction false} BlockIsIn(blocks: seq<Addr>, size: nat, p: Addr)
    requires p in blocks && size > 0
    ensures InBlocks(blocks, size, p) >= 1
  {
    if blocks[0] != p { BlockIsIn(blocks[1..], size, p); }
  }

  /** Whatever the program writes into a block it holds, the links of the free lists stay. */
  lemma LiveWritesKeepLinks(s: Pool, words: map<Addr, Addr>, i: nat, p: Addr, w: Addr, t: nat, c: nat, l: List)
    requires Valid(s) && i < |s.live| && InBlock(s.live[i], p) == 1 && c < NCLASS
    ensures Lists(words, l, s.stash[c]) ==> Lists(words[p := w], l, s.stash[c])
    ensures t < |s.threads| ==> ThreadOk(s.threads[t])
    ensures t < |s.threads| && Lists(words, l, s.threads[t].lists[c]) ==> Lists(words[p := w], l, s.threads[t].lists[c])
  {
    LiveHeldOnce(s, i, i, p);
    hide In, Conserved;
    if p in s.stash[c] {
      BlockIsIn(s.stash[c], Size(c), p);
      ListsUpdate(s.stash, c, [], p);
      NoBlocks(Size(c), p);
    }
    if t < |s.threads| && p in s.threads[t].lists[c] {
      BlockIsIn(s.threads[t].lists[c], Size(c), p);
      ListsUpdate(s.threads[t].lists, c, [], p);
      NoBlocks(Size(c), p);
      ThreadsUpdate(s.threads, t, NewThread, p);
      SpawnedThread(p);
    }
    if Lists(words, l, s.stash[c]) { ChainFrame(words, l.head, s.stash[c], p, w); }
    if t < |s.threads| && Lists(words, l, s.threads[t].lists[c]) {
      ChainFrame(words, l.head, s.threads[t].lists[c], p, w);
    }
  }

  // ---- Refilling

  /** However short a spare region is, one is always enough: it holds at least the largest
      block. So a refill replaces its arena at most once before it carves. */
  lemma OneSpareSuffices(s: Pool, t: nat)
    requires Valid(s) && Allowed(s, DoCarve(t)) && s.spare != []
    requires s.threads[t].end - s.threads[t].bump < Size(Last(s.threads[t]).c)
    ensures var s' := Apply(s, DoCarve(t));
      && Allowed(s', DoCarve(t)) && s'.threads[t].end - s'.threads[t].bump >= Size(Last(s'.threads[t]).c)
  {
    assert SpareOk(s.spare[0]) && ThreadOk(s.threads[t]) && CallOk(Last(s.threads[t]));
  }

  lemma OneChunkSuffices(s: Pool, t: nat, p: Addr)
    requires Valid(s) && Allowed(s, Chunk(t, Some(p)))
    ensures var s' := Apply(s, Chunk(t, Some(p)));
      && Allowed(s', DoCarve(t)) && s'.threads[t].end - s'.threads[t].bump >= Size(Last(s'.threads[t]).c)
  {
    assert ThreadOk(s.threads[t]) && CallOk(Last(s.threads[t]));
  }
}
