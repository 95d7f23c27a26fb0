/**
  `clean_memory_snapshot`: the two lists of `struct snapshot_vma` objects, which share their elements, and
  the table of page records.
 */
module Clean {
  import opened Basics
  import opened SweepSpec
  import opened PageTable

  /** One `struct snapshot_vma`; `list_del` of its second node, if it is not selected, changes no list. */
  class SnapshotVma {
    const value: SnapVma

    constructor (value: SnapVma)
      ensures this.value == value
    {
      this.value := value;
    }
  }

  class VmaLists {
    var allVmas: seq<SnapshotVma>
    var snapshottedVmas: seq<SnapshotVma>

    /** As a take leaves them: no node twice, and the selected ones among all. */
    ghost predicate Valid()
      reads this
    {
      NoDup(allVmas) && NoDup(snapshottedVmas) && forall v :: v in snapshottedVmas ==> v in allVmas
    }

    lemma NoneSelected()
      requires Valid()
      ensures allVmas == [] ==> snapshottedVmas == []
    {
      if snapshottedVmas != [] { assert snapshottedVmas[0] in allVmas; }
    }

    /** `clean_snapshot_vmas`: every area is freed once, in order, and neither list keeps a freed one. */
    method CleanSnapshotVmas() returns (freed: seq<SnapshotVma>)
      requires Valid()
      modifies this
      ensures Valid() && allVmas == [] && snapshottedVmas == []
      ensures freed == old(allVmas)
    {
      freed := [];
      while allVmas != []
        invariant Valid() && freed + allVmas == old(allVmas)
        decreases |allVmas|
      {
        var v := allVmas[0];
        assert allVmas == [v] + allVmas[1..];
        WithoutOk(snapshottedVmas, v);
        snapshottedVmas := Without(snapshottedVmas, v);
        allVmas := allVmas[1..];
        freed := freed + [v];
      }
      NoneSelected();
    }

    /** `clean_memory_snapshot`: areas, records and the copies they hold all go, each of them once. */
    method CleanMemorySnapshot(table: Table) returns (vmas: seq<SnapshotVma>, pages: seq<SnapshotPage>)
      requires Valid() && table.Valid()
      modifies this, table, table.buckets
      ensures Valid() && allVmas == [] && snapshottedVmas == [] && table.Valid() && table.index == map[]
      ensures NoDup(vmas) && forall v :: v in vmas <==> v in old(allVmas)
      ensures NoDup(pages) && forall sp :: sp in pages <==> Table.Holds(old(table.index), sp)
    {
      hide Table.Valid;
      vmas := CleanSnapshotVmas();
      pages := table.Clear();
    }
  }
}
