/**
 The main results about the file system: each operation refines one change of the view, what is
 written is what is read, deletion undoes writing, and a restart finds the same volume.
 */
module FileSystemTheorems {
  import opened Layout
  import opened DirectoryTable
  import opened ClusterMap
  import opened FileSystem
  import opened VolumeInvariant
  import opened VolumeOperations
  import opened VolumeView

  // A request's parent passes the driver's "is a directory" test only if it is one.
  predicate AimsAtDirectory(v: Volume, g: Shape, r: Request) {
    r.parent < CLUSTER_MAP_SIZE && (v.fat[r.parent] == END_OF_FILE ==> r.parent in g.dirs)
  }

  // ---- write ----

  function WriteKey(r: Request): Key {
    if r.bufferSize == 0 then Key(r.parent, r.name, NO_EXT, true) else Key(r.parent, r.name, r.ext, false)
  }

  // A new directory's cluster, or the file's bytes rounded up to whole clusters.
  function WriteContent(v: Volume, r: Request, data: seq<byte>): Content
    requires r.parent < CLUSTER_MAP_SIZE && WriteCode(v, r) == 0 && Readable(r, data)
  {
    if r.bufferSize == 0 then SubDir(Allocated(v, r)[0])
    else Data(data[..CLUSTER_SIZE * NeededClusters(r.bufferSize)])
  }

  lemma WrittenContent(v: Volume, r: Request, data: seq<byte>)
    requires r.parent < CLUSTER_MAP_SIZE && WriteCode(v, r) == 0 && Readable(r, data)
    requires r.parent != FAT_CLUSTER && v.fat[FAT_CLUSTER] == END_OF_FILE
    ensures KeyOf(r.parent, WriteEntry(v, r)) == WriteKey(r)
    ensures ContentOf(Write(v, r, data), WriteEntry(v, r)) == WriteContent(v, r, data)
  {
    WriteOnDisk(v, r, data);
    LinkChainMakesChain(v.fat, Allocated(v, r));
  }

  // A successful write adds exactly one binding, under a key that was free, and leaves every other
  // file and directory of the volume as it was.
  lemma WriteRefines(v: Volume, g: Shape, r: Request, data: seq<byte>)
    requires WellFormed(v, g) && AimsAtDirectory(v, g, r) && Readable(r, data) && WriteCode(v, r) == 0
    ensures WriteKey(r) !in ViewOf(v, g)
    ensures ViewOf(Write(v, r, data), WriteShape(v, g, r)) == ViewOf(v, g)[WriteKey(r) := WriteContent(v, r, data)]
  {
    assert DirOk(MetaOf(v), g, r.parent);
    WriteAdds(v, g, r, data);
    WriteOnDisk(v, r, data);
    WrittenContent(v, r, data);
    AddedView(v, Write(v, r, data), g, r.parent, WriteSlot(v, r), WriteEntry(v, r), Allocated(v, r));
  }

  // ---- delete ----

  // The binding a delete with code 0 removes.
  function DeleteKey(v: Volume, r: Request): Key
    requires DeleteDefined(v, r) && DeleteCode(v, r) == 0
  {
    KeyOf(r.parent, v.Table(r.parent)[DeleteSlot(v, r)])
  }

  lemma DeleteRefines(v: Volume, g: Shape, r: Request)
    requires WellFormed(v, g) && AimsAtDirectory(v, g, r) && DeleteDefined(v, r)
    requires DeleteCode(v, r) == 0 && Removable(v, r)
    ensures DeleteKey(v, r) in ViewOf(v, g) && DeleteKey(v, r).name == r.name && DeleteKey(v, r).ext == r.ext
    ensures ViewOf(Delete(v, r), DeleteShape(v, g, r)) == ViewOf(v, g) - {DeleteKey(v, r)}
  {
    var i := DeleteSlot(v, r);
    assert DirOk(MetaOf(v), g, r.parent);
    DeleteRemoves(v, g, r);
    FreedFacts(v, g, r);
    DeleteOnDisk(v, r);
    RemovedView(v, Delete(v, r), g, r.parent, i, Freed(v, v.Table(r.parent)[i]));
  }

  // ---- read ----

  function FileKey(r: Request): Key {
    Key(r.parent, r.name, r.ext, false)
  }

  lemma FirstFileIsChild(v: Volume, g: Shape, r: Request)
    requires WellFormed(v, g) && r.parent < CLUSTER_MAP_SIZE && r.parent in g.dirs
    ensures First(v.Table(r.parent), FileNamed(r.name, r.ext), 0) == SlotOf(v, FileKey(r))
  {
    var t := v.Table(r.parent);
    var i, j := First(t, FileNamed(r.name, r.ext), 0), SlotOf(v, FileKey(r));
    assert DirOk(MetaOf(v), g, r.parent);
    assert i < TABLE_SLOTS ==> 2 <= i && Matches(Keyed(r.name, r.ext, false), t[i]);
    assert j < TABLE_SLOTS ==> Matches(FileNamed(r.name, r.ext), t[j]);
  }

  // A read succeeds exactly when the file is in the view and fits the caller's buffer, and yields
  // the view's bytes; the walk it makes is defined and reads as many bytes as it checked for.
  lemma ReadRefines(v: Volume, g: Shape, r: Request)
    requires WellFormed(v, g) && r.parent < CLUSTER_MAP_SIZE && r.parent in g.dirs
    ensures FileKey(r) in ViewOf(v, g) ==> ViewOf(v, g)[FileKey(r)].Data?
    ensures ReadCode(v, r) == 0 <==>
              FileKey(r) in ViewOf(v, g) && |ViewOf(v, g)[FileKey(r)].bytes| <= r.bufferSize
    ensures ReadCode(v, r) == 2 <==>
              FileKey(r) in ViewOf(v, g) && |ViewOf(v, g)[FileKey(r)].bytes| > r.bufferSize
    ensures ReadCode(v, r) == 0 ==>
              && Ends(v.fat, v.Table(r.parent)[ReadSlot(v, r)].cluster)
              && |ReadData(v, r)| == v.Table(r.parent)[ReadSlot(v, r)].filesize
              && ViewOf(v, g)[FileKey(r)] == Data(ReadData(v, r))
  {
    var m, k := MetaOf(v), FileKey(r);
    assert DirOk(m, g, r.parent);
    FirstFileIsChild(v, g, r);
    var i := SlotOf(v, k);
    if i < TABLE_SLOTS {
      assert Child(m, g, r.parent, i);
      assert ChildOk(m, g, r.parent, i);
      ChainIsOwnership(m, g, r.parent, i);
      ChildSeen(v, g, r.parent, i);
    } else {
      assert k !in ViewOf(v, g);
    }
  }

  // What the driver's operations need of the volume holds in every well-formed one: walks end inside
  // the map, a read copies no more than the size it checks, and cluster 0 is never free.
  lemma WellFormedIsReady(v: Volume, g: Shape, r: Request)
    requires WellFormed(v, g) && AimsAtDirectory(v, g, r)
    ensures ReadDefined(v, r) && ReadDirectoryDefined(v, r) && DeleteDefined(v, r)
    ensures v.fat[0] != EMPTY_ENTRY
  {
    DeleteIsDefined(v, g, r);
    if v.fat[r.parent] == END_OF_FILE {
      ReadRefines(v, g, r);
      if ReadDirectoryCode(v, r) == 0 {
        ReadDirectoryFindsName(v, g, r);
      }
    }
  }

  // ---- read_directory ----

  // The table copied to the caller's buffer.
  function DirectoryRead(v: Volume, r: Request): Table
    requires r.parent < CLUSTER_MAP_SIZE && ReadDirectoryCode(v, r) == 0
    requires v.Table(r.parent)[First(v.Table(r.parent), DirNamed(r.name), 0)].cluster < CLUSTER_MAP_SIZE
  {
    v.Table(v.Table(r.parent)[First(v.Table(r.parent), DirNamed(r.name), 0)].cluster)
  }

  // Reading a directory yields a directory that calls itself by the requested name. The name is the
  // directory's own, its parent's or a child's, and no two of these share one (but the root's two).
  lemma ReadDirectoryFindsName(v: Volume, g: Shape, r: Request)
    requires WellFormed(v, g) && r.parent < CLUSTER_MAP_SIZE && r.parent in g.dirs
    requires ReadDirectoryCode(v, r) == 0
    ensures var c := v.Table(r.parent)[First(v.Table(r.parent), DirNamed(r.name), 0)].cluster;
            && c in g.dirs && c < CLUSTER_MAP_SIZE
            && Names(DirectoryRead(v, r)[0], r.name, c)
            && (c == r.parent || c == g.Parent(r.parent) || (g.owner[c].Slot? && g.owner[c].dir == r.parent))
  {
    var m, p := MetaOf(v), r.parent;
    var i := First(v.Table(p), DirNamed(r.name), 0);
    assert DirOk(m, g, p);
    assert DirOk(m, g, g.Parent(p));
    if 2 <= i {
      assert Child(m, g, p, i) && ChildOk(m, g, p, i);
      assert DirOk(m, g, v.Table(p)[i].cluster);
    }
  }

  lemma ReadOwnDirectory(v: Volume, g: Shape, r: Request)
    requires WellFormed(v, g) && r.parent < CLUSTER_MAP_SIZE && r.parent in g.dirs
    requires r.name == v.Table(r.parent)[0].name && r.bufferSize == CLUSTER_SIZE
    ensures ReadDirectoryCode(v, r) == 0
    ensures v.Table(r.parent)[First(v.Table(r.parent), DirNamed(r.name), 0)].cluster == r.parent
    ensures DirectoryRead(v, r) == v.Table(r.parent)
  {
    assert DirOk(MetaOf(v), g, r.parent);
  }

  // ---- The tree ----

  // The directory n steps up from d, along the parent entries in slot 1.
  function Up(v: Volume, d: nat, n: nat): nat
    decreases n
  {
    if n == 0 || d >= CLUSTER_MAP_SIZE then d else Up(v, v.Table(d)[1].cluster, n - 1)
  }

  // Following slot 1 from any directory reaches the root, in at most as many steps as its rank.
  lemma {:induction false} ParentsReachRoot(v: Volume, g: Shape, d: nat) returns (n: nat)
    requires WellFormed(v, g) && d in g.dirs && d in g.rank
    ensures n <= g.rank[d] && Up(v, d, n) == ROOT_CLUSTER
    decreases g.rank[d]
  {
    assert DirOk(MetaOf(v), g, d);
    if d == ROOT_CLUSTER {
      n := 0;
    } else {
      var m := ParentsReachRoot(v, g, g.Parent(d));
      n := m + 1;
    }
  }

  // ---- A file written and then deleted ----

  // Deleting a file just written succeeds and gives back the cluster map exactly.
  lemma WriteThenDelete(v: Volume, g: Shape, r: Request, data: seq<byte>)
    requires WellFormed(v, g) && AimsAtDirectory(v, g, r) && Readable(r, data)
    requires WriteCode(v, r) == 0 && r.bufferSize != 0
    ensures var v' := Write(v, r, data);
            && DeleteDefined(v', r) && DeleteCode(v', r) == 0 && Removable(v', r)
            && Delete(v', r).fat == v.fat
  {
    WriteThenDeleteSlot(v, g, r, data);
    ReleaseAllocated(v, r);
  }

  // What is allocated is what is given back, and it is exactly what the size needs.
  lemma ReleaseAllocated(v: Volume, r: Request)
    requires r.parent < CLUSTER_MAP_SIZE && WriteCode(v, r) == 0
    ensures Release(LinkChain(v.fat, Allocated(v, r)), Allocated(v, r)) == v.fat
    ensures |FreeClusters(LinkChain(v.fat, Allocated(v, r)))| + NeededClusters(r.bufferSize) == |FreeClusters(v.fat)|
  {
    var cs := Allocated(v, r);
    AllocatedFree(v, r);
    forall k | 0 <= k < |cs| ensures v.fat[cs[k]] == EMPTY_ENTRY {
      assert cs[k] in cs;
    }
    ReleaseUndoesLinkChain(v.fat, cs);
    LinkChainUses(v.fat, cs);
  }

  // So does the view: every other file has the bytes it had.
  lemma WriteThenDeleteView(v: Volume, g: Shape, r: Request, data: seq<byte>)
    requires WellFormed(v, g) && AimsAtDirectory(v, g, r) && Readable(r, data)
    requires WriteCode(v, r) == 0 && r.bufferSize != 0
    requires DeleteDefined(Write(v, r, data), r)
    ensures ViewOf(Delete(Write(v, r, data), r), DeleteShape(Write(v, r, data), WriteShape(v, g, r), r)) == ViewOf(v, g)
  {
    WriteThenDeleteSlot(v, g, r, data);
    WriteRefines(v, g, r, data);
    DeleteRefines(Write(v, r, data), WriteShape(v, g, r), r);
    UpdateThenRemove(ViewOf(v, g), WriteKey(r), WriteContent(v, r, data));
  }

  lemma UpdateThenRemove(view: View, k: Key, c: Content)
    requires k !in view
    ensures view[k := c] - {k} == view
  {
  }

  // The delete matches the entry just written.
  lemma WrittenSlotMatches(v: Volume, g: Shape, r: Request, data: seq<byte>)
    requires WellFormed(v, g) && AimsAtDirectory(v, g, r) && Readable(r, data)
    requires WriteCode(v, r) == 0 && r.bufferSize != 0
    ensures var v' := Write(v, r, data);
            && v'.fat == LinkChain(v.fat, Allocated(v, r)) && v'.fat[r.parent] == END_OF_FILE
            && v'.Table(r.parent)[WriteSlot(v, r)] == WriteEntry(v, r)
            && DeleteSlot(v', r) == WriteSlot(v, r) && 2 <= WriteSlot(v, r)
  {
    var v', p, i, e := Write(v, r, data), r.parent, WriteSlot(v, r), WriteEntry(v, r);
    assert DirOk(MetaOf(v), g, p);
    assert v.Table(p)[0].Used() && v.Table(p)[1].Used();
    forall j | 0 <= j < TABLE_SLOTS && v.Table(p)[j].Used()
      ensures v.Table(p)[j].name != r.name || v.Table(p)[j].ext != r.ext
    {
      assert !Collides(v.Table(p)[j], r);
    }
    InsertedIsFirst(v.Table(p), i, e);
    WriteOnDisk(v, r, data);
    ParentStaysMarked(v, r);
  }

  lemma ParentStaysMarked(v: Volume, r: Request)
    requires r.parent < CLUSTER_MAP_SIZE && WriteCode(v, r) == 0
    ensures LinkChain(v.fat, Allocated(v, r))[r.parent] == END_OF_FILE
  {
    AllocatedFree(v, r);
    LinkChainMakesChain(v.fat, Allocated(v, r));
  }

  lemma WriteThenDeleteSlot(v: Volume, g: Shape, r: Request, data: seq<byte>)
    requires WellFormed(v, g) && AimsAtDirectory(v, g, r) && Readable(r, data)
    requires WriteCode(v, r) == 0 && r.bufferSize != 0
    ensures var v', g' := Write(v, r, data), WriteShape(v, g, r);
            && WellFormed(v', g') && AimsAtDirectory(v', g', r) && DeleteDefined(v', r) && DeleteCode(v', r) == 0
            && DeleteSlot(v', r) == WriteSlot(v, r) && Removable(v', r) && DeleteKey(v', r) == WriteKey(r)
            && v'.fat == LinkChain(v.fat, Allocated(v, r))
            && Delete(v', r).fat == Release(v'.fat, Allocated(v, r))
  {
    WriteKeepsWellFormed(v, g, r, data);
    WrittenSlotMatches(v, g, r, data);
    DeleteIsDefined(Write(v, r, data), WriteShape(v, g, r), r);
    LinkChainMakesChain(v.fat, Allocated(v, r));
  }
}
