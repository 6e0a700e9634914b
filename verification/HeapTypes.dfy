/** What the managed heap stores: handles, values with their outgoing references,
    and slots. Poisoning (GC-verification mode) and the JIT's byte layout are not
    part of the model. */
module HeapTypes {
  import opened Wrappers

  /** The base of the generation range reserved for compaction. */
  const COMPACT_GEN_BASE: nat := 0x8000
  /** Generations are 16-bit and wrap. */
  const GEN_MOD: nat := 0x1_0000
  /** Slot index `u32::MAX` is never handed out. */
  const NO_INDEX: nat := 0xFFFF_FFFF
  /** An object that survived one collection is old. */
  const OLD_AGE: nat := 1
  const MAX_AGE: nat := 255
  /** The largest recordable scan position (24 bits). */
  const SCAN_MAX: nat := 0xFF_FFFF

  datatype Handle = Handle(index: nat, generation: nat)

  /** One stored word: a primitive or a reference. */
  datatype Ref = Prim(bits: int) | Ref(h: Handle)

  /** `Array` and `Collection` hold positions (a collection entry is two words);
      `Env` is the one kind with interior mutability. */
  datatype Kind = Plain | Array | Collection | Env

  /** The handles among `words`, in order. */
  function Refs(words: seq<Ref>): (hs: seq<Handle>)
    ensures forall h :: h in hs <==> Ref(h) in words
  {
    if words == [] then []
    else (if words[0].Ref? then [words[0].h] else []) + Refs(words[1..])
  }

  /** A heap value: its words, plus the strong edges a collection's `scan` hook
      reports for it. */
  datatype Value = Value(kind: Kind, words: seq<Ref>, extra: seq<Handle>) {

    predicate Container() { kind.Array? || kind.Collection? }

    predicate InteriorMutable() { kind.Env? }

    /** The first word at or past position `p` of a container. */
    function Cut(p: nat): (c: nat)
      ensures c <= |words|
    {
      var w := if kind.Collection? then 2 * p else p;
      if w <= |words| then w else |words|
    }

    function Trace(): seq<Handle> { Refs(words) }

    function TraceTail(from: nat): seq<Handle> {
      if Container() then Refs(words[Cut(from)..]) else Refs(words)
    }

    function TraceHead(to: nat): seq<Handle> {
      if Container() then Refs(words[..Cut(to)]) else []
    }

    /** Every strong edge: traced ones, then scanned ones. */
    function Edges(): seq<Handle> { Trace() + extra }
  }

  lemma HeadAndTailCoverTrace(v: Value, p: nat, h: Handle)
    ensures h in v.Trace() <==> h in v.TraceHead(p) || h in v.TraceTail(p)
  {
    if v.Container() {
      assert v.words == v.words[..v.Cut(p)] + v.words[v.Cut(p)..];
    }
  }

  lemma HeadGrows(v: Value, p: nat, q: nat)
    requires p <= q
    ensures forall h :: h in v.TraceHead(p) ==> h in v.TraceHead(q)
  {
    if v.Container() {
      assert v.words[..v.Cut(p)] == v.words[..v.Cut(q)][..v.Cut(p)];
    }
  }

  /** What a caller of `get_mut_append` promises of the borrow: no reference
      before position `at` changes (it may disappear, not appear). */
  ghost predicate UnchangedBefore(before: Value, after: Value, at: nat) {
    forall p: nat | p <= at :: HeadWithin(after, before, p)
  }

  /** `v` has no reference before `p` that `w` does not have there. */
  ghost predicate HeadWithin(v: Value, w: Value, p: nat) {
    forall h | h in v.TraceHead(p) :: h in w.TraceHead(p)
  }

  /** A slot's remembered-set state. */
  datatype Dirty = Clean | Dirty | Sticky | Appended

  datatype Slot = Slot(value: Option<Value>, generation: nat, age: nat,
                       dirty: Dirty, scanLo: nat, scanHi: nat)
  {
    predicate Live() { value.Some? }
    predicate Young() { value.Some? && age < OLD_AGE }
    predicate Old() { value.Some? && age >= OLD_AGE }

    /** `dirty | APPENDED == APPENDED`. */
    predicate NothingDue() { dirty.Clean? || dirty.Appended? }

    function ScanFrom(): nat { scanLo + scanHi * 0x1_0000 }

    function SetScan(at: nat): (s: Slot)
      requires at <= SCAN_MAX
      ensures s.ScanFrom() == at && s.scanLo < 0x1_0000 && s.scanHi < 0x100
      ensures s == this.(scanLo := s.scanLo, scanHi := s.scanHi)
    {
      this.(scanLo := at % 0x1_0000, scanHi := (at / 0x1_0000) % 0x100)
    }

    /** The generation after the wrapping bump of a free. */
    function NextGen(): nat { (generation + 1) % GEN_MOD }

    /** The emptied slot; its next occupant gets the bumped generation. */
    function Vacated(): Slot {
      this.(value := None, generation := NextGen(), dirty := Clean)
    }

    /** Whether the slot will still be allocated under generation `g`. The freed slot of an
        object whose compaction stamped the last generation starts again from 0. */
    predicate Coming(g: nat) {
      && g < COMPACT_GEN_BASE
      && (if Live() then generation < g || generation == GEN_MOD - 1 else generation <= g)
    }

    /** A vacant slot that was dropped from circulation. */
    predicate Retired() { value.None? && generation >= COMPACT_GEN_BASE }
  }

  const VACANT := Slot(None, 0, 0, Clean, 0, 0)

  function LiveSlot(generation: nat, age: nat, v: Value): Slot {
    Slot(Some(v), generation, age, Clean, 0, 0)
  }
}
