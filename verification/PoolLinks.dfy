/** The same threads over linked lists in shared memory: through every interleaving, each
    list's head, tail, length and links are those of the blocks it should hold. */
module PoolLinks {
  import opened Wrappers
  import opened FreeLists
  import opened PoolRuns

  /** The lists by row, the stash's first, and in a row by class. */
  type Rows = seq<seq<seq<Addr>>>

  /** Memory's words, and the records of all lists, by row and class. */
  datatype Links = Links(words: map<Addr, Addr>, table: seq<seq<List>>)

  function RowsOf(s: Pool): (rows: Rows)
    ensures |rows| == |s.threads| + 1 && rows[0] == s.stash
    ensures forall t | 0 <= t < |s.threads| :: rows[t + 1] == s.threads[t].lists
  {
    [s.stash] + seq(|s.threads|, t requires 0 <= t < |s.threads| => s.threads[t].lists)
  }

  ghost predicate Holds(rows: Rows, r: nat, c: nat, p: Addr) {
    r < |rows| && c < |rows[r]| && p in rows[r][c]
  }

  /** No block is on two lists. */
  ghost predicate Apart(rows: Rows) {
    forall p, r, c, q, d | Holds(rows, r, c, p) && Holds(rows, q, d, p) :: r == q && c == d
  }

  ghost predicate Shaped(k: Links, rows: Rows) {
    |k.table| == |rows| && forall r | 0 <= r < |rows| :: |k.table[r]| == |rows[r]| == NCLASS
  }

  ghost predicate TiedAt(k: Links, rows: Rows, r: nat, c: nat)
    requires Shaped(k, rows) && r < |rows| && c < NCLASS
  {
    Lists(k.words, k.table[r][c], rows[r][c])
  }

  /** Every list is linked as it should be. */
  ghost predicate Tied(k: Links, rows: Rows) {
    Shaped(k, rows) && forall r: nat, c: nat | r < |rows| && c < NCLASS :: TiedAt(k, rows, r, c)
  }

  function Set<T>(m: seq<seq<T>>, r: nat, c: nat, x: T): seq<seq<T>>
    requires r < |m| && c < |m[r]|
  {
    m[r := m[r][c := x]]
  }

  // ---- One list

  /** A word written elsewhere leaves every list alone. */
  lemma WriteTied(k: Links, rows: Rows, p: Addr, w: Addr)
    requires Tied(k, rows) && forall r, c :: !Holds(rows, r, c, p)
    ensures Tied(k.(words := k.words[p := w]), rows)
  {
    var k' := k.(words := k.words[p := w]);
    forall r: nat, c: nat | r < |rows| && c < NCLASS ensures TiedAt(k', rows, r, c) {
      assert TiedAt(k, rows, r, c) && !Holds(rows, r, c, p);
      ListsFrame(k.words, k.table[r][c], rows[r][c], p, w);
    }
  }

  function PushAt(k: Links, r: nat, c: nat, p: Addr): Links
    requires r < |k.table| && c < |k.table[r]|
  {
    var (ws, l) := Pushed(k.words, k.table[r][c], p);
    Links(ws, Set(k.table, r, c, l))
  }

  lemma PushTied(k: Links, rows: Rows, r: nat, c: nat, p: Addr)
    requires Tied(k, rows) && r < |rows| && c < NCLASS && p != 0 && forall q, d :: !Holds(rows, q, d, p)
    ensures Tied(PushAt(k, r, c, p), Set(rows, r, c, [p] + rows[r][c]))
  {
    var k', rows' := PushAt(k, r, c, p), Set(rows, r, c, [p] + rows[r][c]);
    forall q: nat, d: nat | q < |rows| && d < NCLASS ensures TiedAt(k', rows', q, d) {
      assert TiedAt(k, rows, q, d) && !Holds(rows, q, d, p);
      if q == r && d == c {
        PushedLists(k.words, k.table[r][c], p, rows[r][c]);
      } else {
        ListsFrame(k.words, k.table[q][d], rows[q][d], p, k.table[r][c].head);
      }
    }
  }

  /** Without its first block, if it has one. */
  function PopAt(k: Links, r: nat, c: nat): Links
    requires r < |k.table| && c < |k.table[r]|
    requires k.table[r][c].head != 0 ==> k.table[r][c].head in k.words && k.table[r][c].len > 0
  {
    k.(table := Set(k.table, r, c, Popped(k.words, k.table[r][c]).1))
  }

  /** A list's record tells whether it is empty and how long it is. */
  lemma HeadTells(k: Links, rows: Rows, r: nat, c: nat)
    requires Tied(k, rows) && r < |rows| && c < NCLASS
    ensures Shaped(k, rows)
    ensures var l := k.table[r][c];
      && (l.head == 0 <==> rows[r][c] == []) && l.len == |rows[r][c]|
      && (l.head != 0 ==> l.head in k.words && l.len > 0 && l.head == rows[r][c][0])
  {
    assert TiedAt(k, rows, r, c);
    PoppedLists(k.words, k.table[r][c], rows[r][c]);
  }

  lemma PopTied(k: Links, rows: Rows, r: nat, c: nat)
    requires Tied(k, rows) && r < |rows| && c < NCLASS && rows[r][c] != []
    ensures var l := k.table[r][c];
      && l.head in k.words && l.len > 0 && Popped(k.words, l).0 == rows[r][c][0]
      && Tied(PopAt(k, r, c), Set(rows, r, c, rows[r][c][1..]))
  {
    HeadTells(k, rows, r, c);
    var k', rows' := PopAt(k, r, c), Set(rows, r, c, rows[r][c][1..]);
    forall q: nat, d: nat | q < |rows| && d < NCLASS ensures TiedAt(k', rows', q, d) {
      assert TiedAt(k, rows, q, d);
      if q == r && d == c { PoppedLists(k.words, k.table[r][c], rows[r][c]); }
    }
  }

  // ---- Two lists

  /** Row `r`'s list of class `c`, emptied in front of the stash's. */
  function StashAt(k: Links, r: nat, c: nat): Links
    requires 0 < r < |k.table| && c < |k.table[r]| && c < |k.table[0]|
  {
    var (ws, l) := Appended(k.words, k.table[0][c], k.table[r][c]);
    Links(ws, Set(Set(k.table, 0, c, l), r, c, Empty))
  }

  function StashRow(rows: Rows, r: nat, c: nat): Rows
    requires 0 < r < |rows| && c < |rows[r]| && c < |rows[0]|
  {
    Set(Set(rows, 0, c, rows[r][c] + rows[0][c]), r, c, [])
  }

  lemma StashTied(k: Links, rows: Rows, r: nat, c: nat)
    requires Tied(k, rows) && Apart(rows) && 0 < r < |rows| && c < NCLASS
    ensures Tied(StashAt(k, r, c), StashRow(rows, r, c)) && Apart(StashRow(rows, r, c))
  {
    var k', rows' := StashAt(k, r, c), StashRow(rows, r, c);
    assert TiedAt(k, rows, r, c) && TiedAt(k, rows, 0, c);
    var l, other := k.table[0][c], k.table[r][c];
    assert forall i | 0 <= i < |rows[r][c]| :: Holds(rows, r, c, rows[r][c][i]);
    forall q: nat, d: nat | q < |rows| && d < NCLASS ensures TiedAt(k', rows', q, d) {
      assert TiedAt(k, rows, q, d);
      if q == 0 && d == c {
        forall i | 0 <= i < |rows[r][c]| ensures rows[r][c][i] !in rows[0][c] {
          assert rows[r][c][i] in rows[0][c] ==> Holds(rows, 0, c, rows[r][c][i]);
        }
        AppendedLists(k.words, l, other, rows[0][c], rows[r][c]);
      } else if !(q == r && d == c) && other.head != 0 {
        assert Holds(rows, r, c, other.tail) && (other.tail in rows[q][d] ==> Holds(rows, q, d, other.tail));
        ListsFrame(k.words, k.table[q][d], rows[q][d], other.tail, l.head);
      }
    }
    StashedApart(rows, r, c);
  }

  lemma StashedApart(rows: Rows, r: nat, c: nat)
    requires Apart(rows) && 0 < r < |rows| && c < |rows[r]| && c < |rows[0]|
    ensures Apart(StashRow(rows, r, c))
  {
    var rows' := StashRow(rows, r, c);
    forall p, q, d, q', d' | Holds(rows', q, d, p) && Holds(rows', q', d', p) ensures q == q' && d == d' {
      WasHeld(rows, r, c, q, d, p);
      WasHeld(rows, r, c, q', d', p);
    }
  }

  /** Where a block was before its list was stashed. */
  lemma WasHeld(rows: Rows, r: nat, c: nat, q: nat, d: nat, p: Addr)
    requires 0 < r < |rows| && c < |rows[r]| && c < |rows[0]| && Holds(StashRow(rows, r, c), q, d, p)
    ensures Holds(rows, q, d, p) || (q == 0 && d == c && Holds(rows, r, c, p))
    ensures !(q == r && d == c)
  {
  }

  /** The stash's list of class `c` becomes row `r`'s. */
  function TakeAt(k: Links, r: nat, c: nat): Links
    requires 0 < r < |k.table| && c < |k.table[r]| && c < |k.table[0]|
  {
    k.(table := Set(Set(k.table, r, c, k.table[0][c]), 0, c, Empty))
  }

  lemma TakeTied(k: Links, rows: Rows, r: nat, c: nat)
    requires Tied(k, rows) && 0 < r < |rows| && c < NCLASS
    ensures Tied(TakeAt(k, r, c), Set(Set(rows, r, c, rows[0][c]), 0, c, []))
  {
    var k', rows' := TakeAt(k, r, c), Set(Set(rows, r, c, rows[0][c]), 0, c, []);
    forall q: nat, d: nat | q < |rows| && d < NCLASS ensures TiedAt(k', rows', q, d) {
      assert TiedAt(k, rows, q, d) && TiedAt(k, rows, 0, c);
    }
  }

  /** An empty list's record may be made anew. */
  lemma ClearTied(k: Links, rows: Rows, c: nat)
    requires Tied(k, rows) && 0 < |rows| && c < NCLASS && rows[0][c] == []
    ensures Tied(k.(table := Set(k.table, 0, c, Empty)), rows)
  {
    var k' := k.(table := Set(k.table, 0, c, Empty));
    forall q: nat, d: nat | q < |rows| && d < NCLASS ensures TiedAt(k', rows, q, d) {
      assert TiedAt(k, rows, q, d);
    }
  }

  /** The first `n` lists of row `r` stashed, one after another. */
  function StashTo(k: Links, r: nat, n: nat): (k': Links)
    requires 0 < r < |k.table| && |k.table[r]| == |k.table[0]| == NCLASS && n <= NCLASS
    ensures |k'.table| == |k.table| && forall q | 0 <= q < |k.table| :: |k'.table[q]| == |k.table[q]|
  {
    if n == 0 then k else StashAt(StashTo(k, r, n - 1), r, n - 1)
  }

  function StashedTo(rows: Rows, r: nat, n: nat): (rows': Rows)
    requires 0 < r < |rows| && |rows[r]| == |rows[0]| == NCLASS && n <= NCLASS
    ensures |rows'| == |rows| && |rows'[r]| == |rows'[0]| == NCLASS
    ensures forall q | 0 < q < |rows| && q != r :: rows'[q] == rows[q]
    ensures forall c | 0 <= c < NCLASS :: rows'[0][c] == if c < n then rows[r][c] + rows[0][c] else rows[0][c]
    ensures forall c | 0 <= c < NCLASS :: rows'[r][c] == if c < n then [] else rows[r][c]
  {
    if n == 0 then rows else StashRow(StashedTo(rows, r, n - 1), r, n - 1)
  }

  lemma {:induction false} StashAllTied(k: Links, rows: Rows, r: nat, n: nat)
    requires Tied(k, rows) && Apart(rows) && 0 < r < |rows| && n <= NCLASS
    ensures Tied(StashTo(k, r, n), StashedTo(rows, r, n)) && Apart(StashedTo(rows, r, n))
  {
    hide StashAt, StashRow, Apart, TiedAt;
    if n > 0 {
      StashAllTied(k, rows, r, n - 1);
      StashTied(StashTo(k, r, n - 1), StashedTo(rows, r, n - 1), r, n - 1);
    }
  }

  // ---- The pool keeps its lists apart

  lemma ListHas(lists: seq<seq<Addr>>, c: nat, p: Addr)
    requires c < |lists| && p in lists[c]
    ensures InLists(lists, p) >= 1
    ensures forall d | 0 <= d < |lists| && d != c && p in lists[d] :: InLists(lists, p) >= 2
  {
    hide InBlocks;
    BlockIsIn(lists[c], Size(c), p);
    ListsUpdate(lists, c, [], p);
    NoBlocks(Size(c), p);
    forall d | 0 <= d < |lists| && d != c && p in lists[d] ensures InLists(lists, p) >= 2 {
      var rest := lists[c := []];
      BlockIsIn(rest[d], Size(d), p);
      ListsUpdate(rest, d, [], p);
      NoBlocks(Size(d), p);
    }
  }

  lemma ThreadHas(ts: seq<Thread>, t: nat, x: Addr)
    requires t < |ts|
    ensures InThreads(ts, x) >= InThread(ts[t], x)
    ensures forall u | 0 <= u < |ts| && u != t :: InThreads(ts, x) >= InThread(ts[t], x) + InThread(ts[u], x)
  {
    hide InThread;
    SpawnedThread(x);
    ThreadsUpdate(ts, t, NewThread, x);
    forall u | 0 <= u < |ts| && u != t ensures InThreads(ts, x) >= InThread(ts[t], x) + InThread(ts[u], x) {
      ThreadsUpdate(ts[t := NewThread], u, NewThread, x);
    }
  }

  /** How often the lists alone hold an address. */
  function Listed(s: Pool, x: Addr): nat { InThreads(s.threads, x) + InLists(s.stash, x) }

  lemma HeldIsListed(s: Pool, r: nat, c: nat, p: Addr)
    requires Holds(RowsOf(s), r, c, p)
    ensures Listed(s, p) >= 1
  {
    hide InLists, InThreads, In;
    ListHas(RowsOf(s)[r], c, p);
    if r > 0 { ThreadHas(s.threads, r - 1, p); }
  }

  lemma RowsApart(s: Pool)
    requires Conserved(s)
    ensures Apart(RowsOf(s))
  {
    var rows := RowsOf(s);
    forall p: Addr, r: nat, c: nat, q: nat, d: nat | Holds(rows, r, c, p) && Holds(rows, q, d, p)
      ensures r == q && c == d
    {
      hide InLists, InThreads, In, InRegions, InLive;
      assert Held(s, p) <= 1;
      ListHas(rows[r], c, p);
      ListHas(rows[q], d, p);
      if r > 0 { ThreadHas(s.threads, r - 1, p); }
      if q > 0 { ThreadHas(s.threads, q - 1, p); }
    }
  }

  /** A byte of a block the program holds, or of a spare region, is no listed block's. */
  ghost predicate Unlisted(s: Pool, p: Addr) {
    InLive(s.live, p) >= 1 || InRegions(s.spare, p) >= 1
  }

  lemma UnlistedIsFree(s: Pool, p: Addr)
    requires Conserved(s) && Unlisted(s, p)
    ensures forall r, c :: !Holds(RowsOf(s), r, c, p)
  {
    hide InLists, InThreads, InRegions, InLive;
    assert Held(s, p) <= 1;
    forall r, c ensures !Holds(RowsOf(s), r, c, p) {
      if Holds(RowsOf(s), r, c, p) { HeldIsListed(s, r, c, p); }
    }
  }

  // ---- Steps

  /** `refill`'s part with the stash: what is there, if anything, becomes row `r`'s list, and
      its first block is handed out. */
  function RefillAt(k: Links, r: nat, c: nat): Links
    requires 0 < r < |k.table| && c < |k.table[r]| && c < |k.table[0]|
    requires var l := k.table[0][c]; l.head != 0 ==> l.head in k.words && l.len > 0
  {
    if k.table[0][c].head == 0 then k.(table := Set(k.table, 0, c, Empty)) else PopAt(TakeAt(k, r, c), r, c)
  }

  function RefillRows(rows: Rows, r: nat, c: nat): Rows
    requires 0 < r < |rows| && c < |rows[r]| && c < |rows[0]|
  {
    if rows[0][c] == [] then rows else Set(Set(rows, r, c, rows[0][c][1..]), 0, c, [])
  }

  lemma RefillTied(k: Links, rows: Rows, r: nat, c: nat)
    requires Tied(k, rows) && 0 < r < |rows| && c < NCLASS
    ensures var l := k.table[0][c]; l.head != 0 ==> l.head in k.words && l.len > 0
    ensures Tied(RefillAt(k, r, c), RefillRows(rows, r, c))
  {
    hide TakeAt, PopAt;
    HeadTells(k, rows, 0, c);
    if rows[0][c] == [] {
      ClearTied(k, rows, c);
    } else {
      TakeTied(k, rows, r, c);
      var taken := Set(Set(rows, r, c, rows[0][c]), 0, c, []);
      PopTied(TakeAt(k, r, c), taken, r, c);
      LastSetting(rows[r], c, rows[0][c], rows[0][c][1..]);
      assert Set(taken, r, c, rows[0][c][1..]) == RefillRows(rows, r, c);
    }
  }

  /** `dealloc_class`, into row `r` while its list is short; else around it or, of a live
      cache, with all of it into the stash. */
  function FreeAt(k: Links, r: nat, c: nat, p: Addr, limit: nat, live: bool): Links
    requires 0 < r < |k.table| && c < |k.table[r]| && c < |k.table[0]|
  {
    if k.table[r][c].len < limit then PushAt(k, r, c, p)
    else if !live then PushAt(k, 0, c, p)
    else StashAt(PushAt(k, r, c, p), r, c)
  }

  function FreeRows(rows: Rows, r: nat, c: nat, p: Addr, limit: nat, live: bool): Rows
    requires 0 < r < |rows| && c < |rows[r]| && c < |rows[0]|
  {
    if |rows[r][c]| < limit then Set(rows, r, c, [p] + rows[r][c])
    else if !live then Set(rows, 0, c, [p] + rows[0][c])
    else Set(Set(rows, 0, c, [p] + rows[r][c] + rows[0][c]), r, c, [])
  }

  lemma FreeTied(k: Links, rows: Rows, r: nat, c: nat, p: Addr, limit: nat, live: bool)
    requires Tied(k, rows) && Apart(rows) && 0 < r < |rows| && c < NCLASS
    requires p != 0 && forall q, d :: !Holds(rows, q, d, p)
    ensures Tied(FreeAt(k, r, c, p, limit, live), FreeRows(rows, r, c, p, limit, live))
  {
    hide PushAt, StashAt, Apart, Holds;
    HeadTells(k, rows, r, c);
    if |rows[r][c]| >= limit && !live {
      PushTied(k, rows, 0, c, p);
    } else {
      PushTied(k, rows, r, c, p);
      if |rows[r][c]| >= limit {
        PushedApart(rows, r, c, p);
        var pushed := Set(rows, r, c, [p] + rows[r][c]);
        StashTied(PushAt(k, r, c, p), pushed, r, c);
        LastSetting(rows[r], c, [p] + rows[r][c], []);
        assert StashRow(pushed, r, c) == FreeRows(rows, r, c, p, limit, live);
      }
    }
  }

  lemma PushedApart(rows: Rows, r: nat, c: nat, p: Addr)
    requires Apart(rows) && r < |rows| && c < |rows[r]| && forall q, d :: !Holds(rows, q, d, p)
    ensures Apart(Set(rows, r, c, [p] + rows[r][c]))
  {
    var rows' := Set(rows, r, c, [p] + rows[r][c]);
    assert forall x, q, d | Holds(rows', q, d, x) :: Holds(rows, q, d, x) || (x == p && q == r && d == c);
  }

  lemma LastSetting<T>(row: seq<T>, c: nat, x: T, y: T)
    requires c < |row|
    ensures row[c := x][c := y] == row[c := y] && row[c := x][c] == x
  {
  }

  lemma NoPop(k: Links, r: nat, c: nat)
    requires r < |k.table| && c < |k.table[r]| && k.table[r][c].head == 0
    ensures PopAt(k, r, c) == k
  {
    assert k.table[r][c := k.table[r][c]] == k.table[r];
    assert Set(k.table, r, c, k.table[r][c]) == k.table;
  }

  /** What a step's thread and class are like. */
  lemma StepFacts(s: Pool, k: Links, t: nat)
    requires Valid(s) && t < |s.threads| && Tied(k, RowsOf(s))
    ensures ThreadOk(s.threads[t]) && ListsOk(s.threads[t].lists) && ListsOk(s.stash) && Conserved(s)
    ensures s.threads[t].calls != [] ==> Last(s.threads[t]).c < NCLASS && TopOk(s.threads[t])
    ensures |k.table| == |s.threads| + 1 && |k.table[t + 1]| == |k.table[0]| == NCLASS
  {
    assert ThreadOk(s.threads[t]);
    if s.threads[t].calls != [] { assert CallOk(s.threads[t].calls[|s.threads[t].calls| - 1]); }
  }

  /** What each step does to the records and the words, by what the records say. */
  ghost function ApplyLinks(s: Pool, k: Links, step: Step): Links
    requires Valid(s) && Allowed(s, step) && Tied(k, RowsOf(s))
  {
    match step
    case Spawn => k.(table := k.table + [Repeat(Empty, NCLASS)])
    case Alloc(t, c) => AllocAt(s, k, t, c)
    case DoRefill(t, sawStash) =>
      StepFacts(s, k, t);
      RefillTied(k, RowsOf(s), t + 1, Last(s.threads[t]).c);
      if sawStash then RefillAt(k, t + 1, Last(s.threads[t]).c) else k
    case DoUncached(t) => UncachedAt(s, k, t)
    case Free(t, i) => FreedAt(s, k, t, i)
    case Exit(t) =>
      StepFacts(s, k, t);
      StashTo(k, t + 1, NCLASS)
    case _ => k
  }

  ghost function AllocAt(s: Pool, k: Links, t: nat, c: nat): Links
    requires Valid(s) && Allowed(s, Alloc(t, c)) && Tied(k, RowsOf(s))
  {
    HeadTells(k, RowsOf(s), t + 1, c);
    PopAt(k, t + 1, c)
  }

  ghost function UncachedAt(s: Pool, k: Links, t: nat): Links
    requires Valid(s) && Allowed(s, DoUncached(t)) && Tied(k, RowsOf(s))
  {
    StepFacts(s, k, t);
    HeadTells(k, RowsOf(s), 0, Last(s.threads[t]).c);
    PopAt(k, 0, Last(s.threads[t]).c)
  }

  ghost function FreedAt(s: Pool, k: Links, t: nat, i: nat): Links
    requires Valid(s) && Allowed(s, Free(t, i)) && Tied(k, RowsOf(s))
  {
    StepFacts(s, k, t);
    var (th, b) := (s.threads[t], s.live[i]);
    assert BlockOk(b);
    FreeAt(k, t + 1, b.c, b.addr, th.limit[b.c], th.state == Live)
  }

  /** The rows where thread `t` has become `th` and the stash `stash`. */
  lemma RowsWith(s: Pool, s': Pool, t: nat, th: Thread, stash: seq<seq<Addr>>)
    requires t < |s.threads| && s'.threads == s.threads[t := th] && s'.stash == stash
    ensures RowsOf(s') == RowsOf(s)[t + 1 := th.lists][0 := stash]
  {
  }

  lemma AllocLinks(s: Pool, k: Links, t: nat, c: nat)
    requires Valid(s) && Allowed(s, Alloc(t, c)) && Tied(k, RowsOf(s))
    ensures Tied(AllocAt(s, k, t, c), RowsOf(Apply(s, Alloc(t, c))))
  {
    hide Valid, Tied, PopAt, Conserved;
    var rows, s' := RowsOf(s), Apply(s, Alloc(t, c));
    RowsWith(s, s', t, s'.threads[t], s.stash);
    StepFacts(s, k, t);
    HeadTells(k, rows, t + 1, c);
    if rows[t + 1][c] == [] {
      assert RowsOf(s') == rows;
      NoPop(k, t + 1, c);
    } else {
      PopTied(k, rows, t + 1, c);
      assert RowsOf(s') == Set(rows, t + 1, c, rows[t + 1][c][1..]);
    }
  }

  lemma RefillLinks(s: Pool, k: Links, t: nat, sawStash: bool)
    requires Valid(s) && Allowed(s, DoRefill(t, sawStash)) && Tied(k, RowsOf(s))
    ensures Tied(ApplyLinks(s, k, DoRefill(t, sawStash)), RowsOf(Apply(s, DoRefill(t, sawStash))))
  {
    hide Valid, Tied, RefillAt, Conserved;
    var rows, s' := RowsOf(s), Apply(s, DoRefill(t, sawStash));
    StepFacts(s, k, t);
    var c := Last(s.threads[t]).c;
    RowsWith(s, s', t, s'.threads[t], s'.stash);
    RefillTied(k, rows, t + 1, c);
    assert RowsOf(s') == if sawStash then RefillRows(rows, t + 1, c) else rows;
  }

  lemma UncachedLinks(s: Pool, k: Links, t: nat)
    requires Valid(s) && Allowed(s, DoUncached(t)) && Tied(k, RowsOf(s))
    ensures Tied(UncachedAt(s, k, t), RowsOf(Apply(s, DoUncached(t))))
  {
    hide Valid, Tied, PopAt, Conserved;
    var rows, s' := RowsOf(s), Apply(s, DoUncached(t));
    StepFacts(s, k, t);
    var c := Last(s.threads[t]).c;
    RowsWith(s, s', t, s'.threads[t], s'.stash);
    HeadTells(k, rows, 0, c);
    if rows[0][c] == [] {
      assert RowsOf(s') == rows;
      NoPop(k, 0, c);
    } else {
      PopTied(k, rows, 0, c);
      assert RowsOf(s') == Set(rows, 0, c, rows[0][c][1..]);
    }
  }

  /** A block the program holds starts no listed block. */
  lemma LiveUnlisted(s: Pool, i: nat)
    requires Conserved(s) && i < |s.live|
    ensures forall r, c :: !Holds(RowsOf(s), r, c, s.live[i].addr)
  {
    LiveRemove(s.live, i, s.live[i].addr);
    UnlistedIsFree(s, s.live[i].addr);
  }

  lemma FreeLinks(s: Pool, k: Links, t: nat, i: nat)
    requires Valid(s) && Allowed(s, Free(t, i)) && Tied(k, RowsOf(s))
    ensures Tied(FreedAt(s, k, t, i), RowsOf(Apply(s, Free(t, i))))
  {
    hide Tied, FreeAt, Conserved, Holds, Apart, Valid, RowsOf, Freed, FreeRows, ListsOk, TopOk;
    var rows := RowsOf(s);
    StepFacts(s, k, t);
    FreedRows(s, t, i);
    var (th, b) := (s.threads[t], s.live[i]);
    LiveUnlisted(s, i);
    RowsApart(s);
    FreeTied(k, rows, t + 1, b.c, b.addr, th.limit[b.c], th.state == Live);
  }

  lemma FreedRows(s: Pool, t: nat, i: nat)
    requires Valid(s) && Allowed(s, Free(t, i))
    ensures var (th, b) := (s.threads[t], s.live[i]);
      && ThreadOk(th) && BlockOk(b) && ListsOk(s.stash)
      && RowsOf(Freed(s, t, i)) == FreeRows(RowsOf(s), t + 1, b.c, b.addr, th.limit[b.c], th.state == Live)
  {
    hide Conserved;
    assert ThreadOk(s.threads[t]) && BlockOk(s.live[i]);
    var s' := Freed(s, t, i);
    RowsWith(s, s', t, s'.threads[t], s'.stash);
  }

  lemma ExitLinks(s: Pool, k: Links, t: nat)
    requires Valid(s) && Allowed(s, Exit(t)) && Tied(k, RowsOf(s))
    ensures Tied(ApplyLinks(s, k, Exit(t)), RowsOf(Apply(s, Exit(t))))
  {
    hide Tied, StashTo, StashedTo, Apart, Conserved;
    StepFacts(s, k, t);
    RowsApart(s);
    StashAllTied(k, RowsOf(s), t + 1, NCLASS);
    TornRows(s, t);
  }

  lemma TornRows(s: Pool, t: nat)
    requires Valid(s) && Allowed(s, Exit(t))
    ensures |s.threads[t].lists| == |s.stash| == NCLASS
    ensures RowsOf(TornDown(s, t)) == StashedTo(RowsOf(s), t + 1, NCLASS)
  {
    hide Conserved;
    assert ThreadOk(s.threads[t]);
    var rows, s' := RowsOf(s), TornDown(s, t);
    RowsWith(s, s', t, s'.threads[t], s'.stash);
    var done := StashedTo(rows, t + 1, NCLASS);
    assert done[0] == s'.stash && done[t + 1] == NoLists;
  }

  lemma SpawnLinks(s: Pool, k: Links)
    requires Valid(s) && Tied(k, RowsOf(s))
    ensures Tied(ApplyLinks(s, k, Spawn), RowsOf(Apply(s, Spawn)))
  {
    hide Valid, Conserved;
    var rows, k', rows' := RowsOf(s), ApplyLinks(s, k, Spawn), RowsOf(Apply(s, Spawn));
    assert rows' == rows + [NoLists];
    forall r: nat, c: nat | r < |rows'| && c < NCLASS ensures TiedAt(k', rows', r, c) {
      if r < |rows| { assert TiedAt(k, rows, r, c); }
    }
  }

  /** Steps that touch no list. */
  lemma OtherLinks(s: Pool, step: Step)
    requires Valid(s) && Allowed(s, step)
    requires step.Enter? || step.Registered? || step.DoCarve? || step.Chunk? || step.SystemBlock?
    ensures RowsOf(Apply(s, step)) == RowsOf(s)
  {
    hide Valid, Conserved;
    var s' := Apply(s, step);
    assert s'.stash == s.stash && |s'.threads| == |s.threads|;
    assert forall t | 0 <= t < |s.threads| :: s'.threads[t].lists == s.threads[t].lists;
  }

  /** After every step of any thread each list is linked as it should be. */
  lemma StepLinks(s: Pool, k: Links, step: Step)
    requires Valid(s) && Allowed(s, step) && Tied(k, RowsOf(s))
    ensures Valid(Apply(s, step)) && Tied(ApplyLinks(s, k, step), RowsOf(Apply(s, step)))
  {
    hide Valid, Tied, Apply, Allowed, RowsOf;
    StepKeeps(s, step);
    match step
    case Spawn => SpawnLinks(s, k);
    case Alloc(t, c) => AllocLinks(s, k, t, c);
    case DoRefill(t, sawStash) => RefillLinks(s, k, t, sawStash);
    case DoUncached(t) => UncachedLinks(s, k, t);
    case Free(t, i) => FreeLinks(s, k, t, i);
    case Exit(t) => ExitLinks(s, k, t);
    case _ => OtherLinks(s, step);
  }

  // ---- Runs

  /** A step of the allocator, or a write by the owner of memory on no list: the program into
      a block it holds, or the header of a spare region. */
  datatype Act = Takes(step: Step) | Writes(p: Addr, w: Addr)

  ghost predicate MayAct(s: Pool, act: Act) {
    match act
    case Takes(step) => Allowed(s, step)
    case Writes(p, _) => Unlisted(s, p)
  }

  ghost function After(s: Pool, act: Act): Pool
    requires Valid(s) && MayAct(s, act)
  {
    if act.Takes? then Apply(s, act.step) else s
  }

  ghost function LinksAfter(s: Pool, k: Links, act: Act): Links
    requires Valid(s) && MayAct(s, act) && Tied(k, RowsOf(s))
  {
    match act
    case Takes(step) => ApplyLinks(s, k, step)
    case Writes(p, w) => k.(words := k.words[p := w])
  }

  ghost predicate Follow(s: seq<Pool>, k: seq<Links>, acts: seq<Act>, i: nat)
    requires i < |acts| && |s| == |k| == |acts| + 1
  {
    Valid(s[i]) && Tied(k[i], RowsOf(s[i])) ==>
      MayAct(s[i], acts[i]) && s[i + 1] == After(s[i], acts[i]) && k[i + 1] == LinksAfter(s[i], k[i], acts[i])
  }

  const StartLinks: Links := Links(map[], [Repeat(Empty, NCLASS)])

  /** In every interleaving of all threads' steps and of writes into whatever memory is on no
      list, every thread's lists and the stash's are linked, ended and counted right. */
  lemma {:induction false} ListsStayLinked(s: seq<Pool>, k: seq<Links>, acts: seq<Act>, n: nat)
    requires n <= |acts| && |s| == |k| == |acts| + 1 && s[0] == Start && k[0] == StartLinks
    requires forall i | 0 <= i < n :: Follow(s, k, acts, i)
    ensures Valid(s[n]) && Tied(k[n], RowsOf(s[n]))
  {
    hide Valid, Tied, Apply, Allowed, RowsOf, ApplyLinks, Unlisted;
    if n == 0 {
      StartValid();
      StartTied();
    } else {
      ListsStayLinked(s, k, acts, n - 1);
      assert Follow(s, k, acts, n - 1);
      ActLinks(s[n - 1], k[n - 1], acts[n - 1]);
    }
  }

  lemma StartTied()
    ensures Tied(StartLinks, RowsOf(Start))
  {
    assert RowsOf(Start) == [NoLists];
    forall r: nat, c: nat | r < 1 && c < NCLASS ensures TiedAt(StartLinks, RowsOf(Start), r, c) {}
  }

  lemma ActLinks(s: Pool, k: Links, act: Act)
    requires Valid(s) && MayAct(s, act) && Tied(k, RowsOf(s))
    ensures Valid(After(s, act)) && Tied(LinksAfter(s, k, act), RowsOf(After(s, act)))
  {
    hide Tied, Apply, Allowed, RowsOf, ApplyLinks, Unlisted;
    match act
    case Takes(step) => StepLinks(s, k, step);
    case Writes(p, w) =>
      UnlistedIsFree(s, p);
      WriteTied(k, RowsOf(s), p, w);
  }
}
