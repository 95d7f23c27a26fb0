/**
  The records of the snapshot as the kernel's `DECLARE_HASHTABLE` keeps them: `struct snapshot_page`
  objects in buckets chosen by a hash of the page base, which together behave as a map.
 */
module PageTable {
  import opened Basics
  import opened Kernel
  import opened PageSpec

  class SnapshotPage {
    const pageBase: nat
    var prot: Prot
    var data: Option<Content>
    var copied: bool
    var hadPte: bool
    var dirty: bool
    var inList: bool

    constructor (base: nat)
      ensures pageBase == base && data == None
    {
      pageBase := base;
      data := None;
    }

    function Value(): Rec
      reads this
    {
      Rec(prot, data, copied, hadPte, dirty, inList)
    }

    /** What `add_snapshot_page` resets, followed by what its caller sets. */
    method Reset(p: Prot, had: bool)
      modifies this
      ensures Value() == Rec(p, old(data), false, had, false, false)
    {
      prot, hadPte := p, had;
      copied, dirty, inList := false, false, false;
    }

    /** The field updates of `record_dirty_page`; the content is copied out the first time only. */
    method BecomeDirty(c: Content)
      modifies this
      ensures Value() == DirtyRec(old(Value()), c)
    {
      dirty := true;
      if !inList {
        inList := true;
      }
      if !copied {
        data := Some(c);
        copied := true;
      }
    }
  }

  const HASH_SIZE := 256

  class Table {
    const hash: nat -> nat
    const buckets: array<seq<SnapshotPage>>
    ghost var index: map<nat, SnapshotPage>

    function Bucket(p: nat): nat {
      hash(p) % HASH_SIZE
    }

    /** Every record sits once, in the bucket of its page base, and no two records share a base. */
    ghost predicate Valid()
      reads this, buckets
    {
      && buckets.Length == HASH_SIZE
      && (forall p :: p in index ==> index[p].pageBase == p && index[p] in buckets[Bucket(p)])
      && (forall b, sp :: 0 <= b < HASH_SIZE && sp in buckets[b] ==>
            Bucket(sp.pageBase) == b && sp.pageBase in index && index[sp.pageBase] == sp)
      && (forall b :: 0 <= b < HASH_SIZE ==> NoDup(buckets[b]))
    }

    constructor (hash: nat -> nat)
      ensures Valid() && index == map[] && fresh(buckets)
    {
      this.hash := hash;
      buckets := new seq<SnapshotPage>[HASH_SIZE](_ => []);
      index := map[];
    }

    /** The hash lookup finds exactly what the table, seen as a map, holds for `p`. */
    method Get(p: nat) returns (sp: SnapshotPage?)
      requires Valid()
      ensures sp == if p in index then index[p] else null
    {
      var bucket := buckets[Bucket(p)];
      var i := 0;
      while i < |bucket|
        invariant 0 <= i <= |bucket|
        invariant forall k :: 0 <= k < i ==> bucket[k].pageBase != p
      {
        if bucket[i].pageBase == p {
          assert bucket[i] in bucket;
          return bucket[i];
        }
        i := i + 1;
      }
      sp := null;
    }

    /** `hash_add`: the new record goes to the front of its bucket. */
    method Add(sp: SnapshotPage)
      requires Valid() && sp.pageBase !in index
      modifies this, buckets
      ensures Valid() && index == old(index)[sp.pageBase := sp]
    {
      var b := Bucket(sp.pageBase);
      ghost var before := buckets[b];
      assert sp !in before;
      buckets[b] := [sp] + buckets[b];
      index := index[sp.pageBase := sp];
      assert NoDup(buckets[b]);
      assert forall other :: other in buckets[b] <==> other == sp || other in before;
    }

    /**
      `add_snapshot_page`: through both insertion paths the table afterwards holds one record for `p`,
      the one it had if reuse was attempted.
     */
    method AddSnapshotPage(p: nat, attemptReuse: bool, prot: Prot, had: bool) returns (sp: SnapshotPage)
      requires Valid() && (attemptReuse || p !in index)
      modifies this, buckets, if p in index then {index[p]} else {}
      ensures Valid() && index == old(index)[p := sp] && sp.pageBase == p
      ensures if p in old(index) then sp == old(index)[p] else fresh(sp)
      ensures sp.Value() == Rec(prot, if p in old(index) then old(index[p].data) else None, false, had, false, false)
    {
      var found := null;
      if attemptReuse {
        found := Get(p);
      }
      if found == null {
        sp := new SnapshotPage(p);
        Add(sp);
      } else {
        sp := found;
      }
      sp.Reset(prot, had);
    }

    static ghost predicate Holds(index: map<nat, SnapshotPage>, sp: SnapshotPage) {
      sp.pageBase in index && index[sp.pageBase] == sp
    }

    /** `hash_del` of the first record of a bucket. */
    method RemoveFirst(b: nat) returns (sp: SnapshotPage)
      requires Valid() && b < HASH_SIZE && buckets[b] != []
      modifies this, buckets
      ensures Valid() && Holds(old(index), sp) && index == old(index) - {sp.pageBase}
      ensures buckets[b] == old(buckets[b])[1..] && forall c :: 0 <= c < HASH_SIZE && c != b ==> buckets[c] == old(buckets[c])
    {
      sp := buckets[b][0];
      ghost var before := buckets[b];
      assert sp in before && before == [sp] + before[1..];
      buckets[b] := buckets[b][1..];
      index := index - {sp.pageBase};
      assert forall other :: other in buckets[b] <==> other in before && other != sp;
    }

    /** The end of `clean_memory_snapshot`: every record is taken out and freed, once. */
    method Clear() returns (freed: seq<SnapshotPage>)
      requires Valid()
      modifies this, buckets
      ensures Valid() && index == map[]
      ensures NoDup(freed) && forall sp :: sp in freed <==> Holds(old(index), sp)
    {
      hide Valid;
      freed := [];
      BucketsLength();
      for b := 0 to HASH_SIZE
        invariant Valid() && buckets.Length == HASH_SIZE
        invariant NoDup(freed) && forall sp :: sp in freed || Holds(index, sp) <==> Holds(old(index), sp)
        invariant forall sp :: sp in freed ==> !Holds(index, sp)
        invariant forall c :: 0 <= c < b ==> buckets[c] == []
      {
        while buckets[b] != []
          invariant Valid() && buckets.Length == HASH_SIZE
          invariant NoDup(freed) && forall sp :: sp in freed || Holds(index, sp) <==> Holds(old(index), sp)
          invariant forall sp :: sp in freed ==> !Holds(index, sp)
          invariant forall c :: 0 <= c < b ==> buckets[c] == []
          decreases |buckets[b]|
        {
          var sp := RemoveFirst(b);
          freed := freed + [sp];
        }
      }
      EmptyBuckets();
    }

    lemma BucketsLength()
      requires Valid()
      ensures buckets.Length == HASH_SIZE
    {
    }

    lemma EmptyBuckets()
      requires Valid() && forall c :: 0 <= c < HASH_SIZE ==> buckets[c] == []
      ensures index == map[]
    {
      assert forall p :: p in index ==> index[p] in buckets[Bucket(p)] && 0 <= Bucket(p) < HASH_SIZE;
    }
  }
}
