/**
  The part of the kernel's memory management that the snapshot engine drives: one process'
  page table, the page frames it points to, and the primitive operations on them.

  A page is named by its base address.  Frames are numbered in order of allocation and never
  reused; frame 0 is the zero page that read faults on anonymous memory map read-only.
  `foreign` are the frames that something outside this page table can see, the page cache among
  them; `files` says which of them backs each page of a private file mapping.
 */
module Kernel {
  import opened Basics

  newtype Byte = b: int | 0 <= b < 256

  type Content = seq<Byte>

  const PAGE_SIZE := 4096
  function Zeros(n: nat): Content { seq(n, i => 0) }

  const ZERO_PAGE: Content := Zeros(PAGE_SIZE)
  const ZERO_FRAME: nat := 0

  datatype Pte = Pte(frame: nat, writable: bool)

  datatype Mem = Mem(mapped: set<nat>, ptes: map<nat, Pte>, frames: seq<Content>, foreign: set<nat>, files: map<nat, nat>)

  predicate PageAligned(a: nat) {
    a % PAGE_SIZE == 0
  }

  /** Nothing but the page table entry of `p` refers to the frame of `p`. */
  predicate Exclusive(m: Mem, p: nat) {
    && p in m.ptes
    && m.ptes[p].frame !in m.foreign
    && forall q :: q in m.ptes && q != p ==> m.ptes[q].frame != m.ptes[p].frame
  }

  /** What the kernel itself guarantees: in particular, a writable entry owns its frame. */
  ghost predicate WellFormed(m: Mem) {
    && ZERO_FRAME < |m.frames|
    && m.frames[ZERO_FRAME] == ZERO_PAGE
    && ZERO_FRAME in m.foreign
    && (forall f :: f in m.foreign ==> f < |m.frames|)
    && (forall p :: p in m.ptes ==> p in m.mapped && m.ptes[p].frame < |m.frames|)
    && (forall p :: p in m.ptes && m.ptes[p].writable ==> Exclusive(m, p))
    && (forall p :: p in m.files ==> p in m.mapped && m.files[p] in m.foreign)
  }

  /** The frame that a load from the absent page `p` finds: the zero page, or the file's. */
  function Backing(m: Mem, p: nat): nat {
    if p in m.files then m.files[p] else ZERO_FRAME
  }

  function FrameContent(m: Mem, f: nat): Content {
    if f < |m.frames| then m.frames[f] else ZERO_PAGE
  }

  /** What a load from the private page `p` would see. */
  function Contents(m: Mem, p: nat): Content {
    FrameContent(m, if p in m.ptes then m.ptes[p].frame else Backing(m, p))
  }

  /** No private frame has ever been attached to `p`: it has no entry, or only maps what backs it. */
  ghost predicate Untouched(m: Mem, p: nat) {
    p in m.ptes ==> m.ptes[p] == Pte(Backing(m, p), false)
  }

  function WithPte(m: Mem, p: nat, pte: Pte): Mem {
    m.(ptes := m.ptes[p := pte])
  }

  /** Gives `p` a freshly allocated, writable frame holding `c`. */
  function AttachFrame(m: Mem, p: nat, c: Content): Mem {
    m.(ptes := m.ptes[p := Pte(|m.frames|, true)], frames := m.frames + [c])
  }

  /** A store that needs a frame of its own: a copy of what the page reads as, zeroes if it is absent and anonymous. */
  function CowFault(m: Mem, p: nat): Mem {
    AttachFrame(m, p, Contents(m, p))
  }

  /** A load from an absent page. */
  function MapBacking(m: Mem, p: nat): Mem {
    WithPte(m, p, Pte(Backing(m, p), false))
  }

  function MakeWritable(m: Mem, p: nat): Mem {
    if p in m.ptes then WithPte(m, p, Pte(m.ptes[p].frame, true)) else m
  }

  /** Clearing the write bit of an entry that is not there changes nothing. */
  function WriteProtect(m: Mem, p: nat): Mem {
    if p in m.ptes then WithPte(m, p, Pte(m.ptes[p].frame, false)) else m
  }

  function Store(m: Mem, p: nat, c: Content): Mem {
    if p in m.ptes && m.ptes[p].frame < |m.frames|
    then m.(frames := m.frames[m.ptes[p].frame := c])
    else m
  }

  function Zap(m: Mem, p: nat): Mem {
    m.(ptes := m.ptes - {p})
  }

  function UnmapRange(m: Mem, lo: nat, hi: nat): Mem {
    m.(mapped := m.mapped - Range(lo, hi), ptes := m.ptes - Range(lo, hi), files := m.files - Range(lo, hi))
  }

  /** New mappings: of anonymous memory, but for the pages of `files`. */
  function MapPages(m: Mem, pages: set<nat>, files: map<nat, nat>): Mem {
    m.(mapped := m.mapped + pages, files := m.files + files)
  }
}
