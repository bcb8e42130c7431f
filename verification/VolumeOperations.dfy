/**
 Each successful operation on a directory of a well-formed volume adds or removes one entry, so it
 keeps the invariant; and what it leaves alone on disk.
 */
module VolumeOperations {
  import opened Layout
  import opened DirectoryTable
  import opened ClusterMap
  import opened FileSystem
  import opened VolumeInvariant

  ghost predicate WellFormed(v: Volume, g: Shape) {
    Inv(MetaOf(v), g)
  }

  // ---- write ----

  function WriteSlot(v: Volume, r: Request): (i: nat)
    requires r.parent < CLUSTER_MAP_SIZE && WriteCode(v, r) == 0
    ensures i < TABLE_SLOTS && !v.Table(r.parent)[i].Used()
  {
    First(v.Table(r.parent), FreeSlot, 0)
  }

  // The entry a successful write puts in the directory.
  function WriteEntry(v: Volume, r: Request): DirEntry
    requires r.parent < CLUSTER_MAP_SIZE && WriteCode(v, r) == 0
  {
    var was := v.Table(r.parent)[WriteSlot(v, r)];
    var c := Allocated(v, r)[0];
    var e := if r.bufferSize == 0 then DirEntryFor(r.name, c) else FileEntryFor(r, c);
    e.(created := was.created, modified := was.modified)
  }

  lemma AllocatedFree(v: Volume, r: Request)
    requires r.parent < CLUSTER_MAP_SIZE && WriteCode(v, r) == 0
    ensures forall c :: c in Allocated(v, r) ==> c < CLUSTER_MAP_SIZE && v.fat[c] == EMPTY_ENTRY
  {
    FirstFitTakesLowest(v.fat, NeededClusters(r.bufferSize));
  }

  // The disk after a successful write: the directory, the allocated clusters and cluster 1 change.
  lemma WriteOnDisk(v: Volume, r: Request, data: seq<byte>)
    requires r.parent < CLUSTER_MAP_SIZE && Readable(r, data) && WriteCode(v, r) == 0
    requires r.parent != FAT_CLUSTER && v.fat[FAT_CLUSTER] == END_OF_FILE
    ensures var v', cs := Write(v, r, data), Allocated(v, r);
            && v'.fat == LinkChain(v.fat, cs) && v'.Synced()
            && v'.Table(r.parent) == v.Table(r.parent)[WriteSlot(v, r) := WriteEntry(v, r)]
            && (forall x: nat :: x < CLUSTER_MAP_SIZE && x != r.parent && x != FAT_CLUSTER && x !in cs ==>
                  v'.disk[x] == v.disk[x])
            && (r.bufferSize == 0 ==>
                  v'.Table(cs[0]) == NewTable(r.name, cs[0], v.Table(r.parent)[0].name, r.parent))
            && (r.bufferSize != 0 ==> Gather(v'.disk, cs) == data[..CLUSTER_SIZE * |cs|])
  {
    var cs := Allocated(v, r);
    AllocatedFree(v, r);
    assert r.parent !in cs && FAT_CLUSTER !in cs;
    if r.bufferSize == 0 {
      WriteDirectoryOnDisk(v, r, data);
    } else {
      WriteFileOnDisk(v, r, data);
    }
    MapRoundTrip(LinkChain(v.fat, cs));
  }

  lemma CreateDirectoryOnDisk(v: Volume, name: Name, p: nat, c: nat)
    requires p < CLUSTER_MAP_SIZE && c < CLUSTER_MAP_SIZE && p != c
    ensures var v' := CreateDirectoryTable(v, name, p, c);
            && v'.fat == v.fat[c := END_OF_FILE]
            && v'.Table(p) == Insert(v.Table(p), DirEntryFor(name, c))
            && v'.Table(c) == NewTable(name, c, v.Table(p)[0].name, p)
            && (forall x: nat :: x < CLUSTER_MAP_SIZE && x != p && x != c ==> v'.disk[x] == v.disk[x])
  {
    var table := NewTable(name, c, v.Table(p)[0].name, p);
    var v1 := v.PutTable(c, table);
    PutTableReads(v, c, table);
    PutTableReads(v1.(fat := v1.fat[c := END_OF_FILE]), p, Insert(v.Table(p), DirEntryFor(name, c)));
  }

  lemma WriteDirectoryOnDisk(v: Volume, r: Request, data: seq<byte>)
    requires r.parent < CLUSTER_MAP_SIZE && Readable(r, data) && WriteCode(v, r) == 0 && r.bufferSize == 0
    requires r.parent != FAT_CLUSTER && r.parent !in Allocated(v, r) && FAT_CLUSTER !in Allocated(v, r)
    ensures var v', cs := Write(v, r, data), Allocated(v, r);
            && v'.fat == LinkChain(v.fat, cs) && v'.disk[FAT_CLUSTER] == EncodeMap(v'.fat)
            && v'.Table(r.parent) == v.Table(r.parent)[WriteSlot(v, r) := WriteEntry(v, r)]
            && (forall x: nat :: x < CLUSTER_MAP_SIZE && x != r.parent && x != FAT_CLUSTER && x !in cs ==>
                  v'.disk[x] == v.disk[x])
            && v'.Table(cs[0]) == NewTable(r.name, cs[0], v.Table(r.parent)[0].name, r.parent)
  {
    var cs := Allocated(v, r);
    var linked := v.(fat := LinkChain(v.fat, cs));
    assert linked.fat[cs[0] := END_OF_FILE] == linked.fat;
    CreateDirectoryOnDisk(linked, r.name, r.parent, cs[0]);
    assert Write(v, r, data) == CreateDirectoryTable(linked, r.name, r.parent, cs[0]).WriteMap();
  }

  lemma WriteFileOnDisk(v: Volume, r: Request, data: seq<byte>)
    requires r.parent < CLUSTER_MAP_SIZE && Readable(r, data) && WriteCode(v, r) == 0 && r.bufferSize != 0
    requires r.parent != FAT_CLUSTER && r.parent !in Allocated(v, r) && FAT_CLUSTER !in Allocated(v, r)
    ensures var v', cs := Write(v, r, data), Allocated(v, r);
            && v'.fat == LinkChain(v.fat, cs) && v'.disk[FAT_CLUSTER] == EncodeMap(v'.fat)
            && v'.Table(r.parent) == v.Table(r.parent)[WriteSlot(v, r) := WriteEntry(v, r)]
            && (forall x: nat :: x < CLUSTER_MAP_SIZE && x != r.parent && x != FAT_CLUSTER && x !in cs ==>
                  v'.disk[x] == v.disk[x])
            && Gather(v'.disk, cs) == data[..CLUSTER_SIZE * |cs|]
  {
    var cs := Allocated(v, r);
    var p := r.parent;
    var stored := Volume(LinkChain(v.fat, cs), Store(v.disk, cs, data));
    StoreElsewhere(v.disk, cs, data);
    var parentTable := Insert(v.Table(p), FileEntryFor(r, cs[0]));
    PutTableReads(stored, p, parentTable);
    var v' := Write(v, r, data);
    assert v' == stored.PutTable(p, parentTable).WriteMap();
    GatherStore(v.disk, cs, data);
    GatherFrame(stored.disk, v'.disk, cs);
  }

  function WriteShape(v: Volume, g: Shape, r: Request): Shape
    requires r.parent < CLUSTER_MAP_SIZE
  {
    if WriteCode(v, r) != 0 then g
    else AddShape(g, r.parent, WriteSlot(v, r), WriteEntry(v, r), Allocated(v, r))
  }

  lemma WriteAdds(v: Volume, g: Shape, r: Request, data: seq<byte>)
    requires WellFormed(v, g) && r.parent < CLUSTER_MAP_SIZE && r.parent in g.dirs && Readable(r, data)
    requires WriteCode(v, r) == 0
    ensures Added(MetaOf(v), MetaOf(Write(v, r, data)), r.parent, WriteSlot(v, r), WriteEntry(v, r), Allocated(v, r))
  {
    var m, t, e := MetaOf(v), v.Table(r.parent), WriteEntry(v, r);
    assert DirOk(m, g, r.parent);
    AllocatedFree(v, r);
    WriteOnDisk(v, r, data);
    assert t[0].Used() && t[1].Used();
    forall j: nat | j < TABLE_SLOTS && t[j].Used() ensures !SameKey(t[j], e) {
      assert !Collides(t[j], r);
    }
  }

  // A write into a directory keeps the volume well formed, whatever its outcome.
  lemma WriteKeepsWellFormed(v: Volume, g: Shape, r: Request, data: seq<byte>)
    requires WellFormed(v, g) && r.parent < CLUSTER_MAP_SIZE && Readable(r, data)
    requires v.fat[r.parent] == END_OF_FILE ==> r.parent in g.dirs
    ensures WellFormed(Write(v, r, data), WriteShape(v, g, r))
  {
    if WriteCode(v, r) == 0 {
      WriteAdds(v, g, r, data);
      AddedKeepsInv(MetaOf(v), MetaOf(Write(v, r, data)), g, r.parent, WriteSlot(v, r), WriteEntry(v, r), Allocated(v, r));
    }
  }

  // ---- delete ----

  // The entry a delete matches may be removed: it is a child, and if it is a directory the slot the
  // emptiness scan skips is free as well.
  predicate Removable(v: Volume, r: Request)
    requires DeleteDefined(v, r) && DeleteCode(v, r) == 0
  {
    var i := DeleteSlot(v, r);
    var e := v.Table(r.parent)[i];
    2 <= i && (e.IsDir() ==> !v.Table(e.cluster)[2].Used())
  }

  // In a well-formed volume a delete aimed at a directory touches the map and disk inside their bounds.
  lemma DeleteIsDefined(v: Volume, g: Shape, r: Request)
    requires WellFormed(v, g) && r.parent < CLUSTER_MAP_SIZE
    requires v.fat[r.parent] == END_OF_FILE ==> r.parent in g.dirs
    ensures DeleteDefined(v, r)
  {
    var m, p, i := MetaOf(v), r.parent, DeleteSlot(v, r);
    if v.fat[p] == END_OF_FILE && i < TABLE_SLOTS {
      assert DirOk(m, g, p);
      if 2 <= i {
        assert Child(m, g, p, i);
        assert ChildOk(m, g, p, i);
        ChainIsOwnership(m, g, p, i);
      }
    }
  }

  // The disk after a successful delete: the directory, the freed clusters and cluster 1 change.
  lemma DeleteOnDisk(v: Volume, r: Request)
    requires DeleteDefined(v, r) && DeleteCode(v, r) == 0 && r.parent != FAT_CLUSTER
    requires var e := v.Table(r.parent)[DeleteSlot(v, r)];
             r.parent !in Freed(v, e) && FAT_CLUSTER !in Freed(v, e)
    ensures var v', i := Delete(v, r), DeleteSlot(v, r);
            var e := v.Table(r.parent)[i];
            && v'.fat == Release(v.fat, Freed(v, e)) && v'.Synced()
            && v'.Table(r.parent) == v.Table(r.parent)[i := e.Cleared()]
            && (forall x: nat :: x < CLUSTER_MAP_SIZE && x != r.parent && x != FAT_CLUSTER ==>
                  v'.disk[x] == if x in Freed(v, e) then ZeroCluster() else v.disk[x])
  {
    var t, i := v.Table(r.parent), DeleteSlot(v, r);
    var t' := t[i := t[i].Cleared()];
    var v1 := v.PutTable(r.parent, t');
    PutTableReads(v, r.parent, t');
    WipePointwise(v1.disk, Freed(v, t[i]));
    MapRoundTrip(Delete(v, r).fat);
  }

  function DeleteShape(v: Volume, g: Shape, r: Request): Shape
    requires DeleteDefined(v, r)
  {
    if DeleteCode(v, r) != 0 then g
    else
      var e := v.Table(r.parent)[DeleteSlot(v, r)];
      RemoveShape(g, e, Freed(v, e))
  }

  lemma FreedFacts(v: Volume, g: Shape, r: Request)
    requires WellFormed(v, g) && r.parent in g.dirs && DeleteDefined(v, r) && DeleteCode(v, r) == 0
    requires 2 <= DeleteSlot(v, r)
    ensures var e := v.Table(r.parent)[DeleteSlot(v, r)];
            && Freed(v, e) == Chain(v.fat, e.cluster)
            && r.parent !in Freed(v, e)
            && forall c :: c in Freed(v, e) ==> 3 <= c
  {
    var m, p, i := MetaOf(v), r.parent, DeleteSlot(v, r);
    var e := v.Table(p)[i];
    assert DirOk(m, g, p) && ChildOk(m, g, p, i);
    if e.IsDir() {
      assert DirOk(m, g, e.cluster);
    }
    ChainIsOwnership(m, g, p, i);
  }

  lemma DeleteRemoves(v: Volume, g: Shape, r: Request)
    requires WellFormed(v, g) && r.parent in g.dirs && DeleteDefined(v, r)
    requires DeleteCode(v, r) == 0 && Removable(v, r)
    ensures var i := DeleteSlot(v, r);
            Removed(MetaOf(v), MetaOf(Delete(v, r)), r.parent, i, Freed(v, v.Table(r.parent)[i]))
  {
    var m, p, i := MetaOf(v), r.parent, DeleteSlot(v, r);
    var e := v.Table(p)[i];
    assert DirOk(m, g, p);
    FreedFacts(v, g, r);
    DeleteOnDisk(v, r);
    if e.IsDir() {
      forall j: nat | 2 <= j < TABLE_SLOTS ensures !m.tables[e.cluster][j].Used() {
        if j > 2 {
          assert !Busy(v.Table(e.cluster));
        }
      }
    }
  }

  lemma DeleteKeepsWellFormed(v: Volume, g: Shape, r: Request)
    requires WellFormed(v, g) && DeleteDefined(v, r)
    requires v.fat[r.parent] == END_OF_FILE ==> r.parent in g.dirs
    requires DeleteCode(v, r) == 0 ==> Removable(v, r)
    ensures WellFormed(Delete(v, r), DeleteShape(v, g, r))
  {
    if DeleteCode(v, r) == 0 {
      DeleteRemoves(v, g, r);
      var i := DeleteSlot(v, r);
      RemovedKeepsInv(MetaOf(v), MetaOf(Delete(v, r)), g, r.parent, i, Freed(v, v.Table(r.parent)[i]));
    }
  }
}
