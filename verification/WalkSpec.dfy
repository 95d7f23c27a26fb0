/**
  The walk over the page tables at the take, as functions: the allow/block decision for a range of
  addresses with its two remembered addresses, and the traversal that prunes with it.
 */
module WalkSpec {
  import opened Basics
  import opened Kernel

  /** What the decision depends on: the two lists of ranges, and whether AFL_SNAPSHOT_BLOCK is set. */
  datatype Filter = Filter(allow: seq<Area>, block: seq<Area>, blockOthers: bool)

  datatype Memo = Memo(nextAllowed: nat, nextBlocked: nat)

  const NO_MEMO := Memo(0, 0)

  predicate Overlaps(r: Area, addr: nat, next: nat) {
    next > r.start && addr < r.end
  }

  predicate Covers(r: Area, addr: nat, next: nat) {
    r.start <= addr && r.end >= next
  }

  /** The first range of a list that overlaps [addr, next). */
  function Intersect(ranges: seq<Area>, addr: nat, next: nat): (r: Option<Area>)
    ensures r.None? <==> forall i :: 0 <= i < |ranges| ==> !Overlaps(ranges[i], addr, next)
    ensures r.Some? ==> r.value in ranges && Overlaps(r.value, addr, next)
  {
    if ranges == [] then None
    else if Overlaps(ranges[0], addr, next) then Some(ranges[0])
    else Intersect(ranges[1..], addr, next)
  }

  datatype Action = Subtree | Continue

  function BlockedBy(f: Filter, addr: nat, next: nat): Option<Area> {
    Intersect(f.block, addr, next)
  }

  function AllowedBy(f: Filter, addr: nat, next: nat): Option<Area> {
    Intersect(f.allow, addr, next)
  }

  /** `snapshot_walk_check_range`. */
  function Check(f: Filter, m: Memo, addr: nat, next: nat): (Action, Memo) {
    if next < m.nextBlocked then (Continue, m)
    else if next < m.nextAllowed then (Subtree, m)
    else if BlockedBy(f, addr, next).Some? && Covers(BlockedBy(f, addr, next).value, addr, next) then
      (Continue, Memo(m.nextAllowed, BlockedBy(f, addr, next).value.end))
    else if AllowedBy(f, addr, next).Some? then
      (Subtree, if Covers(AllowedBy(f, addr, next).value, addr, next)
                then Memo(AllowedBy(f, addr, next).value.end, m.nextBlocked) else m)
    else if f.blockOthers then (Continue, Memo(m.nextAllowed, next))
    else (Subtree, if BlockedBy(f, addr, next).None? then Memo(next, m.nextBlocked) else m)
  }

  /** Existing page tables: an entry that is a page's, or one that leads to further entries.
      Only at some levels may the walk skip what is below an entry. */
  datatype Entry = PageEntry(addr: nat) | TableEntry(lo: nat, hi: nat, prunes: bool, entries: seq<Entry>)

  function Lo(e: Entry): nat {
    match e
    case PageEntry(addr) => addr
    case TableEntry(lo, _, _, _) => lo
  }

  function Hi(e: Entry): nat {
    match e
    case PageEntry(addr) => addr + PAGE_SIZE
    case TableEntry(_, hi, _, _) => hi
  }

  function WalkOne(f: Filter, m: Memo, e: Entry): (seq<nat>, Memo)
    decreases e, 1
  {
    var (action, m') := Check(f, m, Lo(e), Hi(e));
    match e
    case PageEntry(addr) => (if action == Continue then [] else [addr], m')
    case TableEntry(_, _, prunes, entries) => if prunes && action == Continue then ([], m') else Walk(f, m', entries)
  }

  /** The pages handed to `make_snapshot_page`, in order, and the remembered addresses at the end. */
  function Walk(f: Filter, m: Memo, es: seq<Entry>): (seq<nat>, Memo)
    decreases es, 0
  {
    if es == [] then ([], m)
    else
      var (pages, m') := WalkOne(f, m, es[0]);
      var (more, m'') := Walk(f, m', es[1..]);
      (pages + more, m'')
  }

  // ---- The decision page by page ----------------------------------------------------------------------

  /** Whether page `p` should be taken: in no blocked range, and in an allowed one unless all are. */
  predicate Flat(f: Filter, p: nat) {
    && BlockedBy(f, p, p + PAGE_SIZE).None?
    && (AllowedBy(f, p, p + PAGE_SIZE).Some? || !f.blockOthers)
  }

  function PagesOf(e: Entry): seq<nat>
    decreases e, 1
  {
    match e
    case PageEntry(addr) => [addr]
    case TableEntry(_, _, _, entries) => Pages(entries)
  }

  /** All the pages that have an entry, in order. */
  function Pages(es: seq<Entry>): seq<nat>
    decreases es, 0
  {
    if es == [] then [] else PagesOf(es[0]) + Pages(es[1..])
  }

  function Taken(f: Filter, pages: seq<nat>): seq<nat> {
    if pages == [] then []
    else (if Flat(f, pages[0]) then [pages[0]] else []) + Taken(f, pages[1..])
  }

  ghost predicate FilterAligned(f: Filter) {
    && (forall r :: r in f.allow ==> PageAligned(r.start) && PageAligned(r.end))
    && (forall r :: r in f.block ==> PageAligned(r.start) && PageAligned(r.end))
  }

  ghost predicate EntryOk(e: Entry)
    decreases e, 1
  {
    && PageAligned(Lo(e)) && PageAligned(Hi(e)) && Lo(e) < Hi(e)
    && (e.TableEntry? ==> EntriesOk(e.entries, e.lo, e.hi))
  }

  /** Entries in order, disjoint, within [lo, hi). */
  ghost predicate EntriesOk(es: seq<Entry>, lo: nat, hi: nat)
    decreases es, 0
  {
    es != [] ==> lo <= Lo(es[0]) && Hi(es[0]) <= hi && EntryOk(es[0]) && EntriesOk(es[1..], Hi(es[0]), hi)
  }
}
