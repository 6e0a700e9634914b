/** The spare regions as they are: each starts with a header of two words, the next region and
    its own end, and the stash knows the first. */
module PoolSpares {
  import opened Wrappers
  import opened FreeLists
  import opened PoolRuns
  import opened PoolLinks

  const WORD: nat := 8

  /** The lists' records, memory's words, and the first spare region. */
  datatype Shared = Shared(k: Links, spare: Addr)

  /** Following the headers from `head` meets `regions`, with their ends, and stops. */
  ghost predicate Headers(words: map<Addr, Addr>, head: Addr, regions: seq<Region>)
    decreases |regions|
  {
    if regions == [] then head == 0
    else
      && head == regions[0].start != 0 && head in words && head + WORD in words
      && words[head + WORD] == regions[0].end
      && Headers(words, words[head], regions[1..])
  }

  ghost predicate Sound(s: Pool, m: Shared) {
    Valid(s) && Tied(m.k, RowsOf(s)) && Headers(m.k.words, m.spare, s.spare)
  }

  /** `new_arena` and `tear_down` read and write the headers; nothing else does. */
  ghost function ApplyShared(s: Pool, m: Shared, step: Step): Shared
    requires Sound(s, m) && Allowed(s, step)
  {
    var k := ApplyLinks(s, m.k, step);
    match step
    case DoCarve(t) =>
      var th := s.threads[t];
      if th.end - th.bump < Size(Last(th).c) then Shared(k, SpareAfter(m, s.spare)) else Shared(k, m.spare)
    case Exit(t) => MadeSpare(Shared(k, m.spare), s.threads[t].bump, s.threads[t].end)
    case _ => Shared(k, m.spare)
  }

  /** The second region, if there is a first. */
  ghost function SpareAfter(m: Shared, regions: seq<Region>): Addr
    requires Headers(m.k.words, m.spare, regions)
  {
    HeadersStart(m.k.words, m.spare, regions);
    if m.spare != 0 then m.k.words[m.spare] else 0
  }

  /** With the header of the tail from `bump` to `end`, if that is long enough. */
  function MadeSpare(m: Shared, bump: Addr, end: Addr): Shared {
    if end - bump >= SPARE_MIN then
      Shared(m.k.(words := m.k.words[bump := m.spare][bump + WORD := end]), bump)
    else m
  }

  lemma HeadersStart(words: map<Addr, Addr>, head: Addr, regions: seq<Region>)
    requires Headers(words, head, regions)
    ensures head == 0 <==> regions == []
    ensures head != 0 ==>
      && head in words && head + WORD in words && head == regions[0].start
      && words[head + WORD] == regions[0].end && Headers(words, words[head], regions[1..])
  {
  }

  // ---- Nobody else writes there

  ghost predicate SameAt(words: map<Addr, Addr>, words': map<Addr, Addr>, a: Addr) {
    a in words ==> a in words' && words'[a] == words[a]
  }

  lemma {:induction false} HeadersFrame(words: map<Addr, Addr>, words': map<Addr, Addr>, head: Addr,
      regions: seq<Region>)
    requires Headers(words, head, regions) && forall i | 0 <= i < |regions| :: SpareOk(regions[i])
    requires forall a | InRegions(regions, a) >= 1 :: SameAt(words, words', a)
    ensures Headers(words', head, regions)
    decreases |regions|
  {
    if regions != [] {
      var first := regions[0];
      assert SpareOk(first);
      assert In(first.start, first.end, head) == 1 && In(first.start, first.end, head + WORD) == 1;
      assert SameAt(words, words', head) && SameAt(words, words', head + WORD);
      HeadersFrame(words, words', words[head], regions[1..]);
    }
  }

  lemma StashSame(k: Links, rows: Rows, r: nat, c: nat, a: Addr)
    requires Tied(k, rows) && 0 < r < |rows| && c < NCLASS && !Holds(rows, r, c, a)
    ensures SameAt(k.words, StashAt(k, r, c).words, a)
  {
    assert TiedAt(k, rows, r, c);
    HeadTells(k, rows, r, c);
  }

  lemma {:induction false} StashAllSame(k: Links, rows: Rows, r: nat, n: nat, a: Addr)
    requires Tied(k, rows) && Apart(rows) && 0 < r < |rows| && n <= NCLASS && forall c :: !Holds(rows, r, c, a)
    ensures SameAt(k.words, StashTo(k, r, n).words, a)
  {
    hide StashAt, Tied, Apart;
    HeadTells(k, rows, r, 0);
    if n > 0 {
      StashAllSame(k, rows, r, n - 1, a);
      StashAllTied(k, rows, r, n - 1);
      var before := StashedTo(rows, r, n - 1);
      assert before[r][n - 1] == rows[r][n - 1] && !Holds(rows, r, n - 1, a);
      StashSame(StashTo(k, r, n - 1), before, r, n - 1, a);
    }
  }

  lemma FreeSame(k: Links, rows: Rows, r: nat, c: nat, p: Addr, limit: nat, live: bool, a: Addr)
    requires Tied(k, rows) && 0 < r < |rows| && c < NCLASS && p != 0 && a != p
    requires forall q, d :: !Holds(rows, q, d, p) && !Holds(rows, q, d, a)
    ensures SameAt(k.words, FreeAt(k, r, c, p, limit, live).words, a)
  {
    hide StashAt, Tied;
    HeadTells(k, rows, r, c);
    PushTied(k, rows, r, c, p);
    var pushed := Set(rows, r, c, [p] + rows[r][c]);
    assert !Holds(rows, r, c, a) && !Holds(pushed, r, c, a);
    StashSame(PushAt(k, r, c, p), pushed, r, c, a);
  }

  /** No step writes a word of a spare region, but to make a region spare. */
  lemma StepSame(s: Pool, k: Links, step: Step, a: Addr)
    requires Valid(s) && Allowed(s, step) && Tied(k, RowsOf(s)) && InRegions(s.spare, a) >= 1
    ensures SameAt(k.words, ApplyLinks(s, k, step).words, a)
  {
    hide Tied, FreeAt, StashTo, Apart, RowsOf, Holds;
    assert Conserved(s);
    UnlistedIsFree(s, a);
    match step
    case Free(t, i) =>
      StepFacts(s, k, t);
      LiveUnlisted(s, i);
      LiveApart(s, i, a);
      var (th, b) := (s.threads[t], s.live[i]);
      assert BlockOk(b);
      FreeSame(k, RowsOf(s), t + 1, b.c, b.addr, th.limit[b.c], th.state == Live, a);
    case Exit(t) =>
      StepFacts(s, k, t);
      RowsApart(s);
      StashAllSame(k, RowsOf(s), t + 1, NCLASS, a);
    case _ =>
  }

  lemma LiveApart(s: Pool, i: nat, a: Addr)
    requires Conserved(s) && i < |s.live| && InRegions(s.spare, a) >= 1
    ensures a != s.live[i].addr
  {
    hide InLists, InThreads, InRegions;
    assert Held(s, a) <= 1;
    LiveRemove(s.live, i, a);
  }

  // ---- Steps

  lemma CarveSpares(s: Pool, m: Shared, t: nat)
    requires Sound(s, m) && Allowed(s, DoCarve(t))
    ensures var (s', m') := (Apply(s, DoCarve(t)), ApplyShared(s, m, DoCarve(t)));
      Headers(m'.k.words, m'.spare, s'.spare)
    ensures var (th, s') := (s.threads[t], Apply(s, DoCarve(t)));
      th.end - th.bump < Size(Last(th).c) && m.spare != 0 ==>
        s'.threads[t].bump == m.spare && m.spare + WORD in m.k.words && s'.threads[t].end == m.k.words[m.spare + WORD]
  {
    hide Tied;
    HeadersStart(m.k.words, m.spare, s.spare);
  }

  lemma ExitSpares(s: Pool, m: Shared, t: nat)
    requires Sound(s, m) && Allowed(s, Exit(t))
    ensures var (s', m') := (Apply(s, Exit(t)), ApplyShared(s, m, Exit(t)));
      Tied(m'.k, RowsOf(s')) && Headers(m'.k.words, m'.spare, s'.spare)
  {
    hide Tied, ApplyLinks, InRegions, RowsOf, Held, Headers;
    var step, th := Exit(t), s.threads[t];
    var s', m', k := Apply(s, step), ApplyShared(s, m, step), ApplyLinks(s, m.k, step);
    assert ThreadOk(th);
    StepLinks(s, m.k, step);
    forall a | InRegions(s.spare, a) >= 1 ensures SameAt(m.k.words, k.words, a) { StepSame(s, m.k, step, a); }
    if th.end - th.bump >= SPARE_MIN {
      var rest := Region(th.bump, th.end);
      assert s'.spare == [rest] + s.spare;
      var second := th.bump + WORD;
      HeaderIsSpare(s', rest, s.spare, th.bump);
      HeaderIsSpare(s', rest, s.spare, second);
      WriteTied(k, RowsOf(s'), th.bump, m.spare);
      WriteTied(k.(words := k.words[th.bump := m.spare]), RowsOf(s'), second, th.end);
      HeadersFrame(m.k.words, m'.k.words, m.spare, s.spare);
      HeadersCons(m'.k.words, rest, s.spare);
    } else {
      HeadersFrame(m.k.words, m'.k.words, m.spare, s.spare);
    }
  }

  lemma HeadersCons(words: map<Addr, Addr>, first: Region, others: seq<Region>)
    requires first.start != 0 && first.start in words && first.start + WORD in words
    requires words[first.start + WORD] == first.end && Headers(words, words[first.start], others)
    ensures Headers(words, first.start, [first] + others)
  {
    assert ([first] + others)[1..] == others;
  }

  /** The header words of a region just made spare are on no list and in no other region. */
  lemma HeaderIsSpare(s: Pool, rest: Region, others: seq<Region>, w: Addr)
    requires Conserved(s) && s.spare == [rest] + others && rest.start + SPARE_MIN <= rest.end
    requires w == rest.start || w == rest.start + WORD
    ensures forall r, c :: !Holds(RowsOf(s), r, c, w)
    ensures InRegions(others, w) == 0
  {
    hide InRegions, RowsOf, InThreads, InLists, InLive, Holds;
    RegionCons(rest, others, w);
    assert Held(s, w) <= 1;
    UnlistedIsFree(s, w);
  }

  lemma OtherSpares(s: Pool, m: Shared, step: Step)
    requires Sound(s, m) && Allowed(s, step) && !step.Exit? && !step.DoCarve?
    ensures var m' := ApplyShared(s, m, step); Headers(m'.k.words, m'.spare, Apply(s, step).spare)
  {
    hide Tied, ApplyLinks, InRegions, RowsOf, Conserved;
    var k := ApplyLinks(s, m.k, step);
    forall a | InRegions(s.spare, a) >= 1 ensures SameAt(m.k.words, k.words, a) { StepSame(s, m.k, step, a); }
    HeadersFrame(m.k.words, k.words, m.spare, s.spare);
  }

  /** After every step of any thread each list and the spare regions are linked as they should
      be; an arena taken over is the first region, up to where its header says. */
  lemma StepSound(s: Pool, m: Shared, step: Step)
    requires Sound(s, m) && Allowed(s, step)
    ensures Sound(Apply(s, step), ApplyShared(s, m, step))
    ensures step.DoCarve? ==>
      var (th, th') := (s.threads[step.t], Apply(s, step).threads[step.t]);
      th.end - th.bump < Size(Last(th).c) && m.spare != 0 ==>
        th'.bump == m.spare && m.spare + WORD in m.k.words && th'.end == m.k.words[m.spare + WORD]
  {
    hide Valid, Tied, ApplyLinks, Headers, RowsOf;
    StepLinks(s, m.k, step);
    match step
    case DoCarve(t) => CarveSpares(s, m, t);
    case Exit(t) => ExitSpares(s, m, t);
    case _ => OtherSpares(s, m, step);
  }

  // ---- Runs

  /** A step of the allocator, or a write by the program into a block it holds. */
  datatype Doing = Takes(step: Step) | Writes(p: Addr, w: Addr)

  ghost predicate MayDo(s: Pool, doing: Doing) {
    match doing
    case Takes(step) => Allowed(s, step)
    case Writes(p, _) => InLive(s.live, p) >= 1
  }

  ghost predicate Leads(s: Pool, m: Shared, doing: Doing, s': Pool, m': Shared)
    requires Sound(s, m)
  {
    && MayDo(s, doing)
    && match doing
       case Takes(step) => s' == Apply(s, step) && m' == ApplyShared(s, m, step)
       case Writes(p, w) => s' == s && m' == m.(k := m.k.(words := m.k.words[p := w]))
  }

  ghost predicate Goes(s: seq<Pool>, m: seq<Shared>, doings: seq<Doing>, i: nat)
    requires i < |doings| && |s| == |m| == |doings| + 1
  {
    Sound(s[i], m[i]) ==> Leads(s[i], m[i], doings[i], s[i + 1], m[i + 1])
  }

  /** In every interleaving of all threads' steps and the program's writes, the lists and the
      spare regions stay linked. */
  lemma {:induction false} SparesStayLinked(s: seq<Pool>, m: seq<Shared>, doings: seq<Doing>, n: nat)
    requires n <= |doings| && |s| == |m| == |doings| + 1 && s[0] == Start && m[0] == Shared(StartLinks, 0)
    requires forall i | 0 <= i < n :: Goes(s, m, doings, i)
    ensures Sound(s[n], m[n])
  {
    hide Sound, Leads;
    if n == 0 {
      StartSound();
    } else {
      SparesStayLinked(s, m, doings, n - 1);
      assert Goes(s, m, doings, n - 1);
      DoingSound(s[n - 1], m[n - 1], doings[n - 1], s[n], m[n]);
    }
  }

  lemma StartSound()
    ensures Sound(Start, Shared(StartLinks, 0))
  {
    hide Tied;
    StartValid();
    StartTied();
  }

  lemma DoingSound(s: Pool, m: Shared, doing: Doing, s': Pool, m': Shared)
    requires Sound(s, m) && Leads(s, m, doing, s', m')
    ensures Sound(s', m')
  {
    hide Tied, Apply, Allowed, RowsOf, ApplyLinks, ApplyShared, Headers, InRegions;
    match doing
    case Takes(step) => StepSound(s, m, step);
    case Writes(p, w) =>
      UnlistedIsFree(s, p);
      WriteTied(m.k, RowsOf(s), p, w);
      forall a | InRegions(s.spare, a) >= 1 ensures a != p { LiveOrSpare(s, a); }
      HeadersFrame(m.k.words, m'.k.words, m.spare, s.spare);
  }

  lemma LiveOrSpare(s: Pool, a: Addr)
    requires Conserved(s)
    ensures InLive(s.live, a) == 0 || InRegions(s.spare, a) == 0
  {
    assert Held(s, a) <= 1;
  }
}
