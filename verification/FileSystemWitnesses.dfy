/**
 Requests that the driver accepts and that break the volume: runs from a formatted disk which show that
 each condition in FileSystemLimits.dfy can fail.
 */
module FileSystemWitnesses {
  import opened Layout
  import opened DirectoryTable
  import opened ClusterMap
  import opened FileSystem
  import opened VolumeInvariant
  import opened VolumeOperations
  import opened FileSystemRuns
  import opened FileSystemLimits

  // ---- Making a directory in an empty one ----

  function Mkdir(d: nat, name: Name): Request
    requires d < CLUSTER_MAP_SIZE
  {
    Request(name, NO_EXT, d, 0)
  }

  predicate NoChildren(t: Table) {
    forall j :: 2 <= j < TABLE_SLOTS ==> !t[j].Used()
  }

  // A directory with no children and a cluster left for one.
  ghost predicate HasRoom(v: Volume, g: Shape, d: nat) {
    WellFormed(v, g) && d in g.dirs && d < CLUSTER_MAP_SIZE && NoChildren(v.Table(d)) && |FreeClusters(v.fat)| > 0
  }

  lemma MkdirAccepted(v: Volume, g: Shape, d: nat, name: Name)
    requires HasRoom(v, g, d) && name != v.Table(d)[0].name && name != v.Table(d)[1].name
    ensures WriteCode(v, Mkdir(d, name)) == 0 && WriteSlot(v, Mkdir(d, name)) == 2
  {
    assert DirOk(MetaOf(v), g, d);
    EmptyTableAccepts(v.Table(d), d, name);
  }

  lemma EmptyTableAccepts(t: Table, d: nat, name: Name)
    requires d < CLUSTER_MAP_SIZE && t[0].Used() && t[1].Used() && NoChildren(t)
    requires name != t[0].name && name != t[1].name
    ensures First(t, FreeSlot, 0) == 2 && !Taken(t, Mkdir(d, name))
  {
    FirstIs(t, FreeSlot, 0, 2);
  }

  // The new directory is the only child, in slot 2, and has no children itself.
  lemma MkdirInEmpty(v: Volume, g: Shape, d: nat, name: Name)
    requires HasRoom(v, g, d) && name != v.Table(d)[0].name && name != v.Table(d)[1].name
    ensures WriteCode(v, Mkdir(d, name)) == 0
    ensures var v', g', c := Write(v, Mkdir(d, name), []), WriteShape(v, g, Mkdir(d, name)), Allocated(v, Mkdir(d, name))[0];
            && WellFormed(v', g') && d in g'.dirs && c in g'.dirs && 3 <= c < CLUSTER_MAP_SIZE && c !in g.dirs && g'.Parent(c) == d
            && |FreeClusters(v'.fat)| == |FreeClusters(v.fat)| - 1
            && v'.Table(c) == NewTable(name, c, v.Table(d)[0].name, d) && NoChildren(v'.Table(c))
            && (exists e :: Names(e, name, c) && v'.Table(d) == v.Table(d)[2 := e])
  {
    var r := Mkdir(d, name);
    MkdirAccepted(v, g, d, name);
    assert DirOk(MetaOf(v), g, d);
    var cs := Allocated(v, r);
    AllocatedFree(v, r);
    assert cs == [cs[0]];
    LinkChainUses(v.fat, cs);
    WriteOnDisk(v, r, []);
    WriteKeepsWellFormed(v, g, r, []);
    assert DirOk(MetaOf(v), g, cs[0]) && CellOk(v.fat, g, cs[0]);
    assert Names(WriteEntry(v, r), name, cs[0]);
  }

  // ---- delete ----

  lemma FreshMapFree()
    ensures |FreeClusters(FreshMap())| == CLUSTER_MAP_SIZE - 3
  {
    FreshMapOk();
    FreePlusOwned(FreshMap(), RootShape(), CLUSTER_MAP_SIZE);
    assert OwnedBelow(RootShape(), CLUSTER_MAP_SIZE) == {};
  }

  lemma RootTableEmpty()
    ensures NoChildren(RootTable())
  {
    forall j | 2 <= j < TABLE_SLOTS ensures !RootTable()[j].Used() {
      RootTableSlots(j);
    }
  }

  lemma RootHasRoom(v: Volume, g: Shape)
    requires WellFormed(v, g) && ROOT_CLUSTER in g.dirs && v.Table(ROOT_CLUSTER) == RootTable() && |FreeClusters(v.fat)| > 0
    ensures HasRoom(v, g, ROOT_CLUSTER)
  {
    RootTableEmpty();
  }

  lemma FormatHasRoom(v: Volume)
    ensures HasRoom(Format(v), RootShape(), ROOT_CLUSTER) && |FreeClusters(Format(v).fat)| == CLUSTER_MAP_SIZE - 3
    ensures Format(v).Table(ROOT_CLUSTER) == RootTable()
  {
    FormatOnDisk(v);
    FormatWellFormed(v);
    FreshMapFree();
    RootHasRoom(Format(v), RootShape());
  }

  // A formatted disk with one directory in the root.
  function OneDirectory(v: Volume, a: Name): Volume {
    Write(Format(v), Mkdir(ROOT_CLUSTER, a), [])
  }

  // Its cluster.
  function FirstCluster(v: Volume, a: Name): nat {
    if WriteCode(Format(v), Mkdir(ROOT_CLUSTER, a)) == 0 then Allocated(Format(v), Mkdir(ROOT_CLUSTER, a))[0] else 0
  }

  // The root's only child is a, at c, and a has no children.
  ghost predicate OneChild(v: Volume, g: Shape, a: Name, c: nat) {
    && HasRoom(v, g, c) && ROOT_CLUSTER in g.dirs && c >= 3
    && v.Table(c) == NewTable(a, c, ROOT_NAME, ROOT_CLUSTER)
    && exists e :: Names(e, a, c)
         && v.Table(ROOT_CLUSTER) == RootTable()[2 := e]
  }

  lemma OneDirectoryMade(v: Volume, a: Name) returns (g: Shape)
    requires a != ROOT_NAME
    ensures WriteCode(Format(v), Mkdir(ROOT_CLUSTER, a)) == 0
    ensures OneChild(OneDirectory(v, a), g, a, FirstCluster(v, a))
  {
    FormatHasRoom(v);
    MkdirInEmpty(Format(v), RootShape(), ROOT_CLUSTER, a);
    g := WriteShape(Format(v), RootShape(), Mkdir(ROOT_CLUSTER, a));
  }

  // ---- delete ----

  // The delete is accepted, and no assignment of owners makes what it leaves well formed.
  ghost predicate DeleteBreaks(v: Volume, r: Request) {
    DeleteDefined(v, r) && DeleteCode(v, r) == 0 && forall g :: !WellFormed(Delete(v, r), g)
  }

  lemma BreaksUnlessRemovable(v: Volume, g: Shape, r: Request)
    requires WellFormed(v, g) && r.parent in g.dirs && DeleteDefined(v, r) && DeleteCode(v, r) == 0 && !Removable(v, r)
    ensures DeleteBreaks(v, r)
  {
    DeleteKeepsWellFormedIff(v, g, r);
  }

  lemma RootDeletable(v: Volume, g: Shape, a: Name, c: nat)
    requires OneChild(v, g, a, c) && a != ROOT_NAME
    ensures DeleteBreaks(v, Mkdir(c, ROOT_NAME))
  {
    var r, t := Mkdir(c, ROOT_NAME), v.Table(c);
    FirstIs(t, Named(ROOT_NAME, NO_EXT), 0, 1);
    DeleteIsDefined(v, g, r);
    assert DirOk(MetaOf(v), g, c);
    assert !Busy(v.Table(ROOT_CLUSTER));
    BreaksUnlessRemovable(v, g, r);
  }

  // Format, mkdir a: now deleting "root" in a matches a's parent entry and frees the root directory.
  lemma DeleteThroughParentEntry(v: Volume, a: Name)
    requires a != ROOT_NAME
    ensures WriteCode(Format(v), Mkdir(ROOT_CLUSTER, a)) == 0 && FirstCluster(v, a) < CLUSTER_MAP_SIZE
    ensures DeleteBreaks(OneDirectory(v, a), Mkdir(FirstCluster(v, a), ROOT_NAME))
  {
    var g := OneDirectoryMade(v, a);
    RootDeletable(OneDirectory(v, a), g, a, FirstCluster(v, a));
  }

  // A directory entered in the root's slot 2 can be deleted while its own slot 2 is in use.
  lemma ParentDeletable(v: Volume, g: Shape, a: Name, c: nat)
    requires WellFormed(v, g) && ROOT_CLUSTER in g.dirs && a != ROOT_NAME && c < CLUSTER_MAP_SIZE
    requires v.Table(ROOT_CLUSTER)[0].name == v.Table(ROOT_CLUSTER)[1].name == ROOT_NAME
    requires Names(v.Table(ROOT_CLUSTER)[2], a, c)
    requires v.Table(c)[2].Used() && !Busy(v.Table(c))
    ensures DeleteBreaks(v, Mkdir(ROOT_CLUSTER, a))
  {
    var r := Mkdir(ROOT_CLUSTER, a);
    FirstIs(v.Table(ROOT_CLUSTER), Named(a, NO_EXT), 0, 2);
    DeleteIsDefined(v, g, r);
    BreaksUnlessRemovable(v, g, r);
  }

  // The root's table is as it was when something is made in another directory.
  lemma MkdirElsewhere(v: Volume, g: Shape, d: nat, name: Name)
    requires WellFormed(v, g) && ROOT_CLUSTER in g.dirs && 3 <= d < CLUSTER_MAP_SIZE && WriteCode(v, Mkdir(d, name)) == 0
    ensures Write(v, Mkdir(d, name), []).Table(ROOT_CLUSTER) == v.Table(ROOT_CLUSTER)
  {
    AllocatedFree(v, Mkdir(d, name));
    WriteOnDisk(v, Mkdir(d, name), []);
  }

  // Format, mkdir a, mkdir b in a: now a, though it has a child, can be deleted.
  lemma DeleteLosesOnlyChild(v: Volume, a: Name, b: Name)
    requires a != ROOT_NAME && b != ROOT_NAME && a != b
    ensures WriteCode(Format(v), Mkdir(ROOT_CLUSTER, a)) == 0 && FirstCluster(v, a) < CLUSTER_MAP_SIZE
    ensures WriteCode(OneDirectory(v, a), Mkdir(FirstCluster(v, a), b)) == 0
    ensures DeleteBreaks(Write(OneDirectory(v, a), Mkdir(FirstCluster(v, a), b), []), Mkdir(ROOT_CLUSTER, a))
  {
    var g1 := OneDirectoryMade(v, a);
    OnlyChildLost(OneDirectory(v, a), g1, a, b, FirstCluster(v, a));
  }

  lemma OnlyChildLost(v: Volume, g: Shape, a: Name, b: Name, c: nat)
    requires OneChild(v, g, a, c) && a != ROOT_NAME && b != ROOT_NAME && a != b
    ensures WriteCode(v, Mkdir(c, b)) == 0
    ensures DeleteBreaks(Write(v, Mkdir(c, b), []), Mkdir(ROOT_CLUSTER, a))
  {
    MkdirInEmpty(v, g, c, b);
    MkdirElsewhere(v, g, c, b);
    ParentDeletable(Write(v, Mkdir(c, b), []), WriteShape(v, g, Mkdir(c, b)), a, c);
  }

  // ---- write ----

  function ZeroFile(name: Name, ext: Ext): Request {
    Request(name, ext, ROOT_CLUSTER, CLUSTER_SIZE)
  }

  lemma ZeroFileAccepted(v: Volume, name: Name, ext: Ext)
    requires name != ROOT_NAME
    ensures WriteCode(Format(v), ZeroFile(name, ext)) == 0
  {
    FormatHasRoom(v);
    FirstIs(Format(v).Table(ROOT_CLUSTER), FreeSlot, 0, 2);
  }

  // A file of one zero cluster: its cluster is marked as a directory's is, and reads as a blank table.
  lemma ZeroFileStored(f: Volume, q: Request)
    requires q.parent == ROOT_CLUSTER && q.bufferSize == CLUSTER_SIZE && WriteCode(f, q) == 0
    requires f.fat[FAT_CLUSTER] == END_OF_FILE
    ensures var v', c := Write(f, q, ZeroCluster()), Allocated(f, q)[0];
            && c < CLUSTER_MAP_SIZE && f.fat[c] == EMPTY_ENTRY
            && v'.fat[c] == END_OF_FILE && v'.disk[c] == ZeroCluster()
            && |FreeClusters(v'.fat)| == |FreeClusters(f.fat)| - 1
  {
    var v', c := Write(f, q, ZeroCluster()), Allocated(f, q)[0];
    AllocatedFree(f, q);
    assert Allocated(f, q) == [c] && f.fat[c] == EMPTY_ENTRY;
    OneLink(f.fat, c);
    WriteOnDisk(f, q, ZeroCluster());
    GatherOne(v'.disk, c);
    assert ZeroCluster()[..CLUSTER_SIZE] == ZeroCluster();
  }

  lemma OneLink(m: FatMap, c: nat)
    requires c < CLUSTER_MAP_SIZE && m[c] == EMPTY_ENTRY
    ensures Ascending([c]) && LinkChain(m, [c])[c] == END_OF_FILE
    ensures |FreeClusters(LinkChain(m, [c]))| == |FreeClusters(m)| - 1
  {
    LinkChainUses(m, [c]);
  }

  lemma GatherOne(disk: Disk, c: nat)
    requires c < CLUSTER_MAP_SIZE
    ensures Gather(disk, [c]) == disk[c]
  {
    GatherExtend(disk, [c], 0);
    assert [c][..1] == [c] && [c][..0] == [];
  }

  lemma ZeroFileMade(f: Volume, g: Shape, q: Request)
    requires WellFormed(f, g) && q.parent == ROOT_CLUSTER && q.bufferSize == CLUSTER_SIZE && WriteCode(f, q) == 0
    ensures var v', g', c := Write(f, q, ZeroCluster()), WriteShape(f, g, q), Allocated(f, q)[0];
            && WellFormed(v', g') && c < CLUSTER_MAP_SIZE && c !in g'.dirs
            && v'.fat[c] == END_OF_FILE && v'.disk[c] == ZeroCluster()
            && |FreeClusters(v'.fat)| == |FreeClusters(f.fat)| - 1
  {
    ZeroFileStored(f, q);
    assert DirOk(MetaOf(f), g, ROOT_CLUSTER) && DirOk(MetaOf(f), g, Allocated(f, q)[0]);
    WriteKeepsWellFormed(f, g, q, ZeroCluster());
  }

  lemma BlankDecodes(i: nat)
    requires i < TABLE_SLOTS
    ensures !DecodeTable(ZeroCluster())[i].Used()
  {
  }

  lemma BlankAccepts(v: Volume, r: Request)
    requires r.parent < CLUSTER_MAP_SIZE && v.fat[r.parent] == END_OF_FILE && v.disk[r.parent] == ZeroCluster()
    requires NeededClusters(r.bufferSize) <= |FreeClusters(v.fat)|
    ensures WriteCode(v, r) == 0
  {
    forall i: nat | i < TABLE_SLOTS ensures !v.Table(r.parent)[i].Used() {
      BlankDecodes(i);
    }
    FirstIs(v.Table(r.parent), FreeSlot, 0, 0);
  }

  // Format, write a file of one zero cluster: now that cluster is accepted as a directory, and what is
  // written into it, file or directory, takes clusters that no directory names.
  lemma WriteIntoFile(v: Volume, name: Name, ext: Ext, into: Request, data: seq<byte>)
    requires name != ROOT_NAME && NeededClusters(into.bufferSize) <= CLUSTER_MAP_SIZE - 4 && Readable(into, data)
    ensures WriteCode(Format(v), ZeroFile(name, ext)) == 0
    ensures var v1 := Write(Format(v), ZeroFile(name, ext), ZeroCluster());
            var r := into.(parent := Allocated(Format(v), ZeroFile(name, ext))[0]);
            && r.parent < CLUSTER_MAP_SIZE && WriteCode(v1, r) == 0
            && forall g :: !WellFormed(Write(v1, r, data), g)
  {
    var f, g0, q := Format(v), RootShape(), ZeroFile(name, ext);
    FormatHasRoom(v);
    ZeroFileAccepted(v, name, ext);
    ZeroFileMade(f, g0, q);
    var v1, g1, r := Write(f, q, ZeroCluster()), WriteShape(f, g0, q), into.(parent := Allocated(f, q)[0]);
    BlankAccepts(v1, r);
    WriteKeepsWellFormedIff(v1, g1, r, data);
  }

  // ---- mount ----

  // Mounting a zeroed disk formats it, so the root then takes any first file or directory that has room.
  lemma ZeroedDiskMounts(v: Volume, r: Request)
    requires v.disk[0] == ZeroCluster() && r.parent == ROOT_CLUSTER && r.name != ROOT_NAME
    requires NeededClusters(r.bufferSize) <= CLUSTER_MAP_SIZE - 3
    ensures !HasSignature(v) && WriteCode(Mount(v), r) == 0
  {
    assert v.disk[0][..BLOCK_SIZE][0] == 0 && Signature()[0] != 0;
    FormatHasRoom(v);
    FirstIs(Format(v).Table(ROOT_CLUSTER), FreeSlot, 0, 2);
  }
}
