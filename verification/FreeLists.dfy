/** Intrusive free lists: the first word of a free block links to the next. */
module FreeLists {

  /** An address; `0` is null. */
  type Addr = nat

  /** `tail` is valid while `head` is not null. */
  datatype List = List(head: Addr, tail: Addr, len: nat)

  const Empty: List := List(0, 0, 0)

  /** Following the links from `head` visits `blocks` and ends. */
  ghost predicate Chain(words: map<Addr, Addr>, head: Addr, blocks: seq<Addr>)
    decreases |blocks|
  {
    if blocks == [] then head == 0
    else head == blocks[0] && head != 0 && head in words && Chain(words, words[head], blocks[1..])
  }

  ghost predicate Distinct(blocks: seq<Addr>) {
    forall i, j | 0 <= i < j < |blocks| :: blocks[i] != blocks[j]
  }

  /** `l` lists exactly `blocks`. */
  ghost predicate Lists(words: map<Addr, Addr>, l: List, blocks: seq<Addr>) {
    && Chain(words, l.head, blocks) && Distinct(blocks) && l.len == |blocks|
    && (blocks != [] ==> l.tail == blocks[|blocks| - 1])
  }

  /** A write elsewhere, by whoever owns that memory, leaves a list alone. */
  lemma {:induction false} ChainFrame(words: map<Addr, Addr>, head: Addr, blocks: seq<Addr>, p: Addr, w: Addr)
    requires Chain(words, head, blocks) && p !in blocks
    ensures Chain(words[p := w], head, blocks)
    decreases |blocks|
  {
    if blocks != [] {
      ChainFrame(words, words[head], blocks[1..], p, w);
    }
  }

  /** Linking the end of one chain to the start of another makes one chain. */
  lemma {:induction false} ChainAppend(words: map<Addr, Addr>, a: Addr, front: seq<Addr>, b: Addr, back: seq<Addr>)
    requires front != [] && Chain(words, a, front) && Distinct(front) && Chain(words, b, back)
    requires forall i | 0 <= i < |front| :: front[i] !in back
    ensures Chain(words[front[|front| - 1] := b], a, front + back)
    decreases |front|
  {
    var last := front[|front| - 1];
    if |front| == 1 {
      ChainFrame(words, b, back, last, b);
      assert (front + back)[1..] == back;
    } else {
      ChainAppend(words, words[a], front[1..], b, back);
      assert (front + back)[1..] == front[1..] + back;
    }
  }

  /** So a list stays what it was. */
  lemma ListsFrame(words: map<Addr, Addr>, l: List, blocks: seq<Addr>, p: Addr, w: Addr)
    requires Lists(words, l, blocks) && p !in blocks
    ensures Lists(words[p := w], l, blocks)
  {
    ChainFrame(words, l.head, blocks, p, w);
  }

  // ---- The operations, on the words and the list's record

  function Pushed(words: map<Addr, Addr>, l: List, p: Addr): (map<Addr, Addr>, List) {
    (words[p := l.head], List(p, if l.head == 0 then p else l.tail, l.len + 1))
  }

  function Popped(words: map<Addr, Addr>, l: List): (Addr, List)
    requires l.head != 0 ==> l.head in words && l.len > 0
  {
    if l.head == 0 then (0, l) else (l.head, l.(head := words[l.head], len := l.len - 1))
  }

  function Appended(words: map<Addr, Addr>, l: List, other: List): (map<Addr, Addr>, List) {
    if other.head == 0 then (words, l)
    else
      (words[other.tail := l.head],
       List(other.head, if l.head == 0 then other.tail else l.tail, l.len + other.len))
  }

  lemma PushedLists(words: map<Addr, Addr>, l: List, p: Addr, blocks: seq<Addr>)
    requires Lists(words, l, blocks) && p != 0 && p !in blocks
    ensures var (ws, r) := Pushed(words, l, p); Lists(ws, r, [p] + blocks)
  {
    ChainFrame(words, l.head, blocks, p, l.head);
    assert ([p] + blocks)[1..] == blocks;
  }

  /** The first block, or null exactly when there is none. */
  lemma PoppedLists(words: map<Addr, Addr>, l: List, blocks: seq<Addr>)
    requires Lists(words, l, blocks)
    ensures (l.head == 0 <==> blocks == []) && (l.head != 0 ==> l.head in words && l.len > 0)
    ensures blocks != [] ==> var (p, r) := Popped(words, l); p == blocks[0] && Lists(words, r, blocks[1..])
  {
  }

  lemma AppendedLists(words: map<Addr, Addr>, l: List, other: List, blocks: seq<Addr>, others: seq<Addr>)
    requires Lists(words, l, blocks) && Lists(words, other, others)
    requires forall i | 0 <= i < |others| :: others[i] !in blocks
    ensures var (ws, r) := Appended(words, l, other); Lists(ws, r, others + blocks)
  {
    if other.head == 0 {
      assert others + blocks == blocks;
    } else {
      ChainAppend(words, other.head, others, l.head, blocks);
    }
  }

  /** The first words of all blocks. */
  class Memory {
    var words: map<Addr, Addr>

    constructor ()
      ensures words == map[]
    {
      words := map[];
    }

    /** `push`. */
    method Push(l: List, p: Addr, ghost blocks: seq<Addr>) returns (r: List)
      requires Lists(words, l, blocks) && p != 0 && p !in blocks
      modifies this
      ensures Lists(words, r, [p] + blocks) && (words, r) == Pushed(old(words), l, p)
    {
      PushedLists(words, l, p, blocks);
      words := words[p := l.head];
      r := List(p, if l.head == 0 then p else l.tail, l.len + 1);
    }

    /** `pop`: the first block, or null when there is none. */
    method Pop(l: List, ghost blocks: seq<Addr>) returns (p: Addr, r: List)
      requires Lists(words, l, blocks)
      ensures p == 0 <==> blocks == []
      ensures p == 0 ==> r == l
      ensures p != 0 ==> p == blocks[0] && Lists(words, r, blocks[1..]) && (p, r) == Popped(words, l)
    {
      if l.head == 0 { return 0, l; }
      p, r := l.head, l.(head := words[l.head], len := l.len - 1);
    }

    /** `append`: `other`'s blocks go in front. */
    method Append(l: List, other: List, ghost blocks: seq<Addr>, ghost others: seq<Addr>) returns (r: List)
      requires Lists(words, l, blocks) && Lists(words, other, others)
      requires forall i | 0 <= i < |others| :: others[i] !in blocks
      modifies this
      ensures Lists(words, r, others + blocks) && (words, r) == Appended(old(words), l, other)
    {
      AppendedLists(words, l, other, blocks, others);
      if other.head == 0 { return l; }
      words := words[other.tail := l.head];
      r := List(other.head, if l.head == 0 then other.tail else l.tail, l.len + other.len);
    }
  }
}
