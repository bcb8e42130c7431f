/**
 The driver of src/filesystem/fat32.c: its state in memory, its loops over tables, map and chains,
 and the disk it writes through. Each operation is proved to compute its function of FileSystem.dfy.
 */
module Fat32Driver {
  import opened Layout
  import opened DirectoryTable
  import opened ClusterMap
  import opened FileSystem
  import opened BlockDevice

  class Driver {
    const disk: ImageDisk
    const clusterMap: array<u32>
    const clusterBuf: array<byte>
    var dirTable: Table

    ghost predicate Valid() {
      && disk.Valid()
      && clusterMap.Length == CLUSTER_MAP_SIZE && clusterBuf.Length == CLUSTER_SIZE
      && clusterBuf != disk.storage && clusterMap as object != disk.storage && clusterMap as object != clusterBuf
    }

    // The cached map and the clusters on disk.
    ghost function State(): Volume
      requires Valid()
      reads clusterMap, disk.storage
    {
      Volume(clusterMap[..], Clusters(disk.storage[..]))
    }

    // The static driver state starts zeroed.
    constructor (d: ImageDisk)
      requires d.Valid()
      ensures Valid() && disk == d && fresh(clusterMap) && fresh(clusterBuf)
    {
      disk := d;
      clusterMap := new u32[CLUSTER_MAP_SIZE](_ => 0);
      clusterBuf := new byte[CLUSTER_SIZE](_ => 0);
      dirTable := BlankTable();
    }

    // ---- Clusters ----

    // One cluster; the callers never ask for more.
    method ReadCluster(ptr: array<byte>, offset: nat, cluster: nat)
      requires Valid() && ptr != disk.storage && cluster < CLUSTER_MAP_SIZE
      requires offset + CLUSTER_SIZE <= ptr.Length
      modifies ptr
      ensures ptr[..] == Splice(old(ptr[..]), offset, State().disk[cluster])
    {
      disk.ReadBlocks(ptr, offset, cluster * CLUSTER_BLOCK_COUNT, CLUSTER_BLOCK_COUNT);
    }

    method WriteCluster(ptr: array<byte>, offset: nat, cluster: nat)
      requires Valid() && ptr != disk.storage && cluster < CLUSTER_MAP_SIZE
      requires offset + CLUSTER_SIZE <= ptr.Length
      modifies disk.storage
      ensures State().disk == old(State().disk)[cluster := ptr[offset..offset + CLUSTER_SIZE]]
    {
      ClusterReplaced(disk.storage[..], cluster, ptr[offset..offset + CLUSTER_SIZE]);
      disk.WriteBlocks(ptr, offset, cluster * CLUSTER_BLOCK_COUNT, CLUSTER_BLOCK_COUNT);
    }

    // A cluster read or written as a directory table: the C code reinterprets the same bytes.
    method ReadTable(cluster: nat) returns (t: Table)
      requires Valid() && cluster < CLUSTER_MAP_SIZE
      ensures t == State().Table(cluster)
    {
      var buf := new byte[CLUSTER_SIZE];
      ReadCluster(buf, 0, cluster);
      assert buf[..] == State().disk[cluster];
      t := DecodeTable(buf[..]);
    }

    method WriteBytes(bytes: Cluster, cluster: nat)
      requires Valid() && cluster < CLUSTER_MAP_SIZE
      modifies disk.storage
      ensures State().disk == old(State().disk)[cluster := bytes]
    {
      var buf := new byte[CLUSTER_SIZE](i requires 0 <= i < |bytes| => bytes[i]);
      assert buf[0..CLUSTER_SIZE] == bytes;
      WriteCluster(buf, 0, cluster);
    }

    method WriteTable(t: Table, cluster: nat)
      requires Valid() && cluster < CLUSTER_MAP_SIZE
      modifies disk.storage
      ensures State() == old(State()).PutTable(cluster, t)
    {
      WriteBytes(EncodeTable(t), cluster);
    }

    method WriteClusterMap()
      requires Valid()
      modifies disk.storage
      ensures State() == old(State()).WriteMap()
    {
      WriteBytes(EncodeMap(clusterMap[..]), FAT_CLUSTER);
    }

    // ---- Directories ----

    // The loop shared by write and create_directory_table: fill the first free slot of dirTable.
    method InsertEntry(e: DirEntry)
      modifies this`dirTable
      ensures dirTable == Insert(old(dirTable), e)
    {
      for i := 0 to TABLE_SLOTS
        invariant dirTable == old(dirTable)
        invariant forall j :: 0 <= j < i ==> dirTable[j].Used()
      {
        if dirTable[i].Used() {
          continue;
        }
        FirstIs(dirTable, FreeSlot, 0, i);
        dirTable := dirTable[i := e.(created := dirTable[i].created, modified := dirTable[i].modified)];
        return;
      }
      FirstIs(dirTable, FreeSlot, 0, TABLE_SLOTS);
    }

    method CreateDirectoryTable(name: Name, parent: nat, self: nat)
      requires Valid() && parent < CLUSTER_MAP_SIZE && self < CLUSTER_MAP_SIZE
      modifies this`dirTable, clusterMap, disk.storage
      ensures State() == FileSystem.CreateDirectoryTable(old(State()), name, parent, self)
    {
      dirTable := ReadTable(parent);
      var table := NewTable(name, self, dirTable[0].name, parent);
      WriteTable(table, self);
      clusterMap[self] := END_OF_FILE;
      if parent == self && parent == ROOT_CLUSTER {
        return;
      }
      InsertEntry(DirEntryFor(name, self));
      WriteTable(dirTable, parent);
    }

    // ---- Formatting and mounting ----

    method IsEmptyStorage() returns (empty: bool)
      requires Valid()
      ensures empty == !HasSignature(State())
    {
      var boot := new byte[BLOCK_SIZE];
      disk.ReadBlocks(boot, 0, 0, 1);
      assert boot[..] == State().disk[0][..BLOCK_SIZE];
      empty := boot[..] != Signature();
    }

    method CreateFat32()
      requires Valid()
      modifies this`dirTable, clusterMap, disk.storage
      ensures State() == Format(old(State()))
    {
      WriteBootSector();
      ghost var image := disk.storage[..];
      clusterMap[0] := CLUSTER_0_VALUE;
      clusterMap[1] := CLUSTER_1_VALUE;
      clusterMap[2] := END_OF_FILE;
      for i := 3 to CLUSTER_MAP_SIZE
        modifies clusterMap
        invariant clusterMap[..3] == [CLUSTER_0_VALUE, CLUSTER_1_VALUE, END_OF_FILE]
        invariant forall j :: 3 <= j < i ==> clusterMap[j] == EMPTY_ENTRY
        invariant disk.storage[..] == image
      {
        clusterMap[i] := EMPTY_ENTRY;
      }
      assert clusterMap[..] == FreshMap();
      WriteTable(BlankTable()[0 := BLANK.(name := ROOT_NAME)], ROOT_CLUSTER);
      CreateDirectoryTable(ROOT_NAME, ROOT_CLUSTER, ROOT_CLUSTER);
    }

    method WriteBootSector()
      requires Valid()
      modifies disk.storage
      ensures State().fat == old(State()).fat
      ensures State().disk == old(State()).disk[0 := Signature() + old(State()).disk[0][BLOCK_SIZE..]]
    {
      var signature := Signature();
      var boot := new byte[BLOCK_SIZE](i requires 0 <= i < BLOCK_SIZE => signature[i]);
      ghost var image := disk.storage[..];
      ghost var bytes := signature + image[BLOCK_SIZE..CLUSTER_SIZE];
      ClusterReplaced(image, 0, bytes);
      disk.WriteBlocks(boot, 0, 0, 1);
      assert boot[0..BLOCK_SIZE] == signature;
      assert disk.storage[..] == image[..0] + bytes + image[CLUSTER_SIZE..];
      assert Clusters(image)[0][BLOCK_SIZE..] == image[BLOCK_SIZE..CLUSTER_SIZE];
    }

    method Initialize()
      requires Valid()
      modifies this`dirTable, clusterMap, disk.storage
      ensures State() == Mount(old(State()))
    {
      var empty := IsEmptyStorage();
      if empty {
        CreateFat32();
      } else {
        LoadClusterMap();
      }
    }

    method LoadClusterMap()
      requires Valid()
      modifies clusterMap
      ensures State() == old(State()).(fat := DecodeMap(old(State()).disk[FAT_CLUSTER]))
    {
      var buf := new byte[CLUSTER_SIZE];
      ReadCluster(buf, 0, FAT_CLUSTER);
      assert buf[..] == State().disk[FAT_CLUSTER];
      CopyMap(DecodeMap(buf[..]));
    }

    method CopyMap(m: FatMap)
      requires Valid()
      modifies clusterMap
      ensures clusterMap[..] == m
    {
      forall c | 0 <= c < CLUSTER_MAP_SIZE {
        clusterMap[c] := m[c];
      }
    }

    // ---- read_directory ----

    method FindDirectory(r: Request) returns (code: Code, slot: nat)
      ensures code == ScanForDirectory(dirTable, r)
      ensures code == 0 ==> slot == First(dirTable, DirNamed(r.name), 0)
    {
      var foundButNotFolder, found := false, false;
      for i := 0 to TABLE_SLOTS
        invariant forall j :: 0 <= j < i ==> !Matches(DirNamed(r.name), dirTable[j])
        invariant found == foundButNotFolder == NamedBelow(dirTable, r.name, false, i)
      {
        if !dirTable[i].Used() {
          continue;
        }
        if dirTable[i].name == r.name {
          found := true;
          if dirTable[i].IsDir() {
            FirstIs(dirTable, DirNamed(r.name), 0, i);
            return 0, i;
          } else {
            foundButNotFolder := true;
          }
        }
      }
      FirstIs(dirTable, DirNamed(r.name), 0, TABLE_SLOTS);
      if foundButNotFolder {
        return 1, TABLE_SLOTS;
      } else if !found {
        return 2, TABLE_SLOTS;
      }
      return -1, TABLE_SLOTS;
    }

    method ReadDirectory(r: Request) returns (code: Code, t: Table)
      requires Valid() && ReadDirectoryDefined(State(), r)
      modifies this`dirTable
      ensures code == ReadDirectoryCode(State(), r)
      ensures code == 0 ==>
                t == State().Table(State().Table(r.parent)[First(State().Table(r.parent), DirNamed(r.name), 0)].cluster)
    {
      t := BlankTable();
      if r.bufferSize != CLUSTER_SIZE {
        return -1, t;
      }
      if clusterMap[r.parent] != END_OF_FILE {
        return -1, t;
      }
      dirTable := ReadTable(r.parent);
      var slot;
      code, slot := FindDirectory(r);
      if code == 0 {
        t := ReadTable(dirTable[slot].cluster);
      }
    }

    // ---- read ----

    // The loop that follows a chain and copies each cluster to the caller's buffer.
    method CopyChain(buf: array<byte>, first: nat)
      requires Valid() && buf != disk.storage && Ends(State().fat, first) && buf as object != clusterMap
      requires CLUSTER_SIZE * |Chain(State().fat, first)| <= buf.Length
      modifies buf
      ensures buf[..] == Splice(old(buf[..]), 0, Gather(State().disk, Chain(State().fat, first)))
    {
      ghost var v, was, cs, k := State(), buf[..], Chain(State().fat, first), 0;
      var cluster: u32, offset := first, 0;
      while cluster != END_OF_FILE
        invariant State() == v && 0 <= k <= |cs| && offset == CLUSTER_SIZE * k
        invariant cluster == if k < |cs| then cs[k] else END_OF_FILE
        invariant buf[..] == Splice(was, 0, Gather(v.disk, cs[..k]))
        decreases |cs| - k
      {
        NextOnChain(v.fat, first, k);
        ReadCluster(buf, offset, cluster);
        GatherSplice(was, v.disk, cs, k);
        offset := offset + CLUSTER_SIZE;
        cluster := clusterMap[cluster];
        k := k + 1;
      }
      assert cs[..k] == cs;
    }

    method FindFile(r: Request) returns (code: Code, slot: nat)
      ensures code == ScanForFile(dirTable, r)
      ensures code == 0 ==> slot == First(dirTable, FileNamed(r.name, r.ext), 0)
    {
      var foundButNotFile, found := false, false;
      for i := 0 to TABLE_SLOTS
        invariant forall j :: 0 <= j < i ==> !Matches(FileNamed(r.name, r.ext), dirTable[j])
        invariant foundButNotFile == NamedBelow(dirTable, r.name, true, i)
        invariant found == (foundButNotFile || NamedBelow(dirTable, r.name, false, i))
      {
        if !dirTable[i].Used() {
          continue;
        }
        if dirTable[i].name == r.name {
          found := true;
          if !dirTable[i].IsDir() && dirTable[i].ext == r.ext {
            FirstIs(dirTable, FileNamed(r.name, r.ext), 0, i);
            if dirTable[i].filesize > r.bufferSize {
              return 2, i;
            }
            return 0, i;
          } else if dirTable[i].IsDir() {
            foundButNotFile := true;
          }
        }
      }
      FirstIs(dirTable, FileNamed(r.name, r.ext), 0, TABLE_SLOTS);
      if foundButNotFile {
        return 1, TABLE_SLOTS;
      } else if !found {
        return 3, TABLE_SLOTS;
      }
      return -1, TABLE_SLOTS;
    }

    method Read(r: Request, buf: array<byte>) returns (code: Code)
      requires Valid() && buf != disk.storage && buf as object != clusterMap
      requires ReadDefined(State(), r) && r.bufferSize <= buf.Length
      modifies this`dirTable, buf
      ensures code == ReadCode(State(), r)
      ensures code == 0 ==>
                && |ReadData(State(), r)| <= r.bufferSize
                && buf[..] == ReadData(State(), r) + old(buf[..])[|ReadData(State(), r)|..]
      ensures code != 0 ==> buf[..] == old(buf[..])
    {
      if clusterMap[r.parent] != END_OF_FILE {
        return -1;
      }
      dirTable := ReadTable(r.parent);
      var slot;
      code, slot := FindFile(r);
      if code == 0 {
        SpliceAtStart(buf[..], ReadData(State(), r));
        CopyChain(buf, dirTable[slot].cluster);
      }
    }

    // ---- write ----

    method CheckNames(r: Request) returns (taken: bool, emptySlotExist: bool)
      ensures taken == Taken(dirTable, r)
      ensures !taken ==> (emptySlotExist <==> First(dirTable, FreeSlot, 0) < TABLE_SLOTS)
    {
      emptySlotExist := false;
      for i := 0 to TABLE_SLOTS
        invariant forall j :: 0 <= j < i ==> !Collides(dirTable[j], r)
        invariant emptySlotExist <==> First(dirTable, FreeSlot, 0) < i
      {
        if !dirTable[i].Used() {
          emptySlotExist := true;
          continue;
        }
        if dirTable[i].name == r.name {
          if dirTable[i].IsDir() && r.bufferSize == 0 {
            return true, emptySlotExist;
          }
          if r.bufferSize != 0 && dirTable[i].ext == r.ext {
            return true, emptySlotExist;
          }
        }
      }
      return false, emptySlotExist;
    }

    method CountFree() returns (available: nat)
      requires Valid()
      ensures available == |FreeClusters(clusterMap[..])|
    {
      available := 0;
      for i := 0 to CLUSTER_MAP_SIZE
        invariant available == |FreeBelow(clusterMap[..], i)|
      {
        if clusterMap[i] == EMPTY_ENTRY {
          available := available + 1;
        }
      }
    }

    // What the allocation loop has done once it has taken the clusters cs.
    static ghost function AfterTaking(r: Request, data: seq<byte>, was: Volume, cs: seq<nat>): Volume
      requires Ascending(cs) && (r.bufferSize != 0 ==> CLUSTER_SIZE * |cs| <= |data|)
    {
      Volume(Links(was.fat, cs), if r.bufferSize == 0 then was.disk else Store(was.disk, cs, data))
    }

    // One taken cluster: store the next piece of a file in it and link it from the last one. A
    // cluster number of 0 stands for "none yet".
    method TakeCluster(r: Request, buf: array<byte>, offset: nat, i: nat, lastWritten: nat,
                       ghost was: Volume, ghost cs: seq<nat>)
      requires Valid() && buf != disk.storage && buf as object != clusterMap && i < CLUSTER_MAP_SIZE
      requires r.bufferSize != 0 ==> CLUSTER_SIZE * (|cs| + 1) <= buf.Length
      requires offset == CLUSTER_SIZE * |cs|
      requires Ascending(cs) && Ascending(cs + [i]) && State() == AfterTaking(r, buf[..], was, cs)
      requires if cs == [] then lastWritten == 0 else lastWritten == cs[|cs| - 1] != 0
      modifies clusterMap, disk.storage
      ensures State() == AfterTaking(r, buf[..], was, cs + [i])
    {
      LinksExtend(was.fat, cs, i);
      if r.bufferSize != 0 {
        StoreExtend(was.disk, cs, i, buf[..]);
        assert buf[offset..offset + CLUSTER_SIZE] == Piece(buf[..], |cs|);
      }
      StorePiece(r, buf, offset, i);
      if lastWritten != 0 {
        clusterMap[lastWritten] := i;
      }
    }

    method StorePiece(r: Request, buf: array<byte>, offset: nat, i: nat)
      requires Valid() && buf != disk.storage && i < CLUSTER_MAP_SIZE
      requires r.bufferSize != 0 ==> offset + CLUSTER_SIZE <= buf.Length
      modifies disk.storage
      ensures State().disk == if r.bufferSize == 0 then old(State()).disk
                              else old(State()).disk[i := buf[offset..offset + CLUSTER_SIZE]]
    {
      if r.bufferSize != 0 {
        WriteCluster(buf, offset, i);
      }
    }

    // What holds in the allocation loop when it comes to cluster i.
    ghost predicate Taking(r: Request, data: seq<byte>, was: Volume, i: nat, first: nat, last: nat, size: nat, offset: nat)
      requires Valid() && i <= CLUSTER_MAP_SIZE && (r.bufferSize != 0 ==> CLUSTER_SIZE * |FreeBelow(was.fat, i)| <= |data|)
      reads clusterMap, disk.storage
    {
      var cs := FreeBelow(was.fat, i);
      && was.fat[0] != EMPTY_ENTRY
      && size == |cs| && offset == CLUSTER_SIZE * size && EndsOf(cs, first, last)
      && State() == AfterTaking(r, data, was, cs)
    }

    // One turn of the allocation loop.
    method ConsiderCluster(r: Request, buf: array<byte>, i: nat, first0: nat, last0: nat, size0: nat, offset0: nat,
                           ghost was: Volume)
      returns (first: nat, last: nat, size: nat, offset: nat)
      requires Valid() && buf != disk.storage && buf as object != clusterMap && i < CLUSTER_MAP_SIZE
      requires r.bufferSize != 0 ==> CLUSTER_SIZE * (|FreeBelow(was.fat, i)| + 1) <= buf.Length
      requires Taking(r, buf[..], was, i, first0, last0, size0, offset0)
      modifies clusterMap, disk.storage
      ensures |FreeBelow(was.fat, i + 1)| <= |FreeBelow(was.fat, i)| + 1
      ensures Taking(r, buf[..], was, i + 1, first, last, size, offset)
    {
      ghost var cs := FreeBelow(was.fat, i);
      NextCandidate(was.fat, i);
      first, last, size, offset := first0, last0, size0, offset0;
      assert clusterMap[i] == State().fat[i];
      if clusterMap[i] == EMPTY_ENTRY {
        TakeCluster(r, buf, offset, i, last, was, cs);
        offset := offset + CLUSTER_SIZE;
        size := size + 1;
        if last == 0 {
          first := i;
        }
        last := i;
      }
    }

    // The allocation loop: it stops when enough clusters are taken, which are the lowest free ones.
    method TakeClusters(r: Request, buf: array<byte>, needed: nat)
      returns (firstWritten: nat, lastWritten: nat, ghost cs: seq<nat>)
      requires Valid() && buf != disk.storage && buf as object != clusterMap && clusterMap[0] != EMPTY_ENTRY
      requires 1 <= needed <= |FreeClusters(clusterMap[..])|
      requires r.bufferSize != 0 ==> CLUSTER_SIZE * needed <= buf.Length
      modifies clusterMap, disk.storage
      ensures cs == FirstFit(old(clusterMap[..]), needed) && Ascending(cs)
      ensures State() == AfterTaking(r, buf[..], old(State()), cs)
      ensures firstWritten == cs[0] && lastWritten == cs[needed - 1] < CLUSTER_MAP_SIZE
    {
      ghost var was := State();
      assert was.fat[0] != EMPTY_ENTRY;
      firstWritten, lastWritten := 0, 0;
      var i: nat, sizeWritten: nat, offset: nat := 0, 0, 0;
      while i < CLUSTER_MAP_SIZE && sizeWritten < needed
        invariant 0 <= i <= CLUSTER_MAP_SIZE && |FreeBelow(was.fat, i)| <= needed
        invariant Taking(r, buf[..], was, i, firstWritten, lastWritten, sizeWritten, offset)
      {
        firstWritten, lastWritten, sizeWritten, offset :=
          ConsiderCluster(r, buf, i, firstWritten, lastWritten, sizeWritten, offset, was);
        i := i + 1;
      }
      cs := FreeBelow(was.fat, i);
      FirstFitReached(was.fat, i, needed);
    }

    method Allocate(r: Request, buf: array<byte>, needed: nat) returns (firstWritten: nat, lastWritten: nat)
      requires Valid() && buf != disk.storage && buf as object != clusterMap && clusterMap[0] != EMPTY_ENTRY
      requires 1 <= needed <= |FreeClusters(clusterMap[..])|
      requires r.bufferSize != 0 ==> CLUSTER_SIZE * needed <= buf.Length
      modifies clusterMap, disk.storage
      ensures var cs := FirstFit(old(clusterMap[..]), needed);
              && firstWritten == cs[0] && lastWritten == cs[needed - 1] && lastWritten < CLUSTER_MAP_SIZE
              && State().fat == LinkChain(old(State()).fat, cs)
              && State().disk == if r.bufferSize == 0 then old(State()).disk
                                 else Store(old(State()).disk, cs, buf[..])
    {
      ghost var cs;
      firstWritten, lastWritten, cs := TakeClusters(r, buf, needed);
      ghost var linked, stored := clusterMap[..], disk.storage[..];
      clusterMap[lastWritten] := END_OF_FILE;
      assert clusterMap[..] == linked[lastWritten := END_OF_FILE] && disk.storage[..] == stored;
    }

    // The file's entry is put in the parent's table.
    method EnterFile(r: Request, first: nat)
      requires Valid() && r.parent < CLUSTER_MAP_SIZE && first < CLUSTER_MAP_SIZE
      requires NeededClusters(r.bufferSize) <= CLUSTER_MAP_SIZE
      modifies this`dirTable, disk.storage
      ensures State() == old(State()).PutTable(r.parent, Insert(old(State()).Table(r.parent), FileEntryFor(r, first)))
    {
      dirTable := ReadTable(r.parent);
      InsertEntry(FileEntryFor(r, first));
      WriteTable(dirTable, r.parent);
    }

    method Write(r: Request, buf: array<byte>) returns (code: Code)
      requires Valid() && buf != disk.storage && buf as object != clusterMap
      requires r.parent < CLUSTER_MAP_SIZE && Readable(r, buf[..]) && clusterMap[0] != EMPTY_ENTRY
      modifies this`dirTable, clusterMap, disk.storage
      ensures code == WriteCode(old(State()), r)
      ensures State() == FileSystem.Write(old(State()), r, buf[..])
    {
      if clusterMap[r.parent] != END_OF_FILE {
        return 2;
      }
      dirTable := ReadTable(r.parent);
      var taken, emptySlotExist := CheckNames(r);
      if taken {
        return 1;
      }
      if !emptySlotExist {
        return -1;
      }
      var needed := NeededClusters(r.bufferSize);
      var available := CountFree();
      if needed > available {
        return -1;
      }
      var firstWritten, lastWritten := Allocate(r, buf, needed);
      if r.bufferSize == 0 {
        CreateDirectoryTable(r.name, r.parent, lastWritten);
        WriteClusterMap();
        return 0;
      } else {
        EnterFile(r, firstWritten);
        WriteClusterMap();
        return 0;
      }
    }

    // ---- delete ----

    method FindNamed(r: Request) returns (slot: nat)
      ensures slot == First(dirTable, Named(r.name, r.ext), 0)
    {
      for i := 0 to TABLE_SLOTS
        invariant forall j :: 0 <= j < i ==> !Matches(Named(r.name, r.ext), dirTable[j])
      {
        if !dirTable[i].Used() {
          continue;
        }
        if r.name == dirTable[i].name && r.ext == dirTable[i].ext {
          FirstIs(dirTable, Named(r.name, r.ext), 0, i);
          return i;
        }
      }
      FirstIs(dirTable, Named(r.name, r.ext), 0, TABLE_SLOTS);
      return TABLE_SLOTS;
    }

    // The emptiness scan, from slot 3.
    method ScanChildren(t: Table) returns (notEmpty: bool)
      ensures notEmpty == Busy(t)
    {
      notEmpty := false;
      var j := 3;
      while j < TABLE_SLOTS && !notEmpty
        invariant 3 <= j <= TABLE_SLOTS
        invariant notEmpty <==> exists k :: 3 <= k < j && t[k].Used()
      {
        if t[j].Used() {
          notEmpty := true;
        }
        j := j + 1;
      }
    }

    method WipeCluster(cluster: nat)
      requires Valid() && cluster < CLUSTER_MAP_SIZE
      modifies clusterBuf, disk.storage
      ensures State().disk == old(State()).disk[cluster := ZeroCluster()]
    {
      forall k | 0 <= k < CLUSTER_SIZE {
        clusterBuf[k] := 0;
      }
      assert clusterBuf[0..CLUSTER_SIZE] == ZeroCluster();
      WriteCluster(clusterBuf, 0, cluster);
    }

    // One turn of the loop below.
    method WipeAndFree(cluster: nat)
      requires Valid() && cluster < CLUSTER_MAP_SIZE
      modifies clusterMap, clusterBuf, disk.storage
      ensures State() == Volume(old(State()).fat[cluster := EMPTY_ENTRY], old(State()).disk[cluster := ZeroCluster()])
    {
      WipeCluster(cluster);
      clusterMap[cluster] := EMPTY_ENTRY;
    }

    // The loop that follows a chain, zeroing each cluster and freeing its map entry.
    method ReleaseChain(first: nat)
      requires Valid() && Ends(State().fat, first)
      modifies clusterMap, clusterBuf, disk.storage
      ensures State().fat == Release(old(State()).fat, Chain(old(State()).fat, first))
      ensures State().disk == Wipe(old(State()).disk, Chain(old(State()).fat, first))
    {
      ghost var was := State();
      ghost var cs, k := Chain(was.fat, first), 0;
      var cluster: u32 := first;
      while cluster != END_OF_FILE
        invariant 0 <= k <= |cs|
        invariant cluster == if k < |cs| then cs[k] else END_OF_FILE
        invariant State().fat == Release(was.fat, cs[..k])
        invariant State().disk == Wipe(was.disk, cs[..k])
        decreases |cs| - k
      {
        NextOnChain(was.fat, first, k);
        ReleaseNext(was.fat, cs, k);
        WipeNext(was.disk, cs, k);
        var copy := clusterMap[cluster];
        assert copy == State().fat[cs[k]];
        WipeAndFree(cluster);
        cluster := copy;
        k := k + 1;
      }
      assert cs[..k] == cs;
    }

    // Clear slot i of the directory, free its clusters and write the map back.
    method RemoveEntry(parent: nat, i: nat)
      requires Valid() && parent < CLUSTER_MAP_SIZE && i < TABLE_SLOTS && dirTable == State().Table(parent)
      requires var e := dirTable[i]; e.cluster < CLUSTER_MAP_SIZE && (!e.IsDir() ==> Ends(State().fat, e.cluster))
      modifies this`dirTable, clusterMap, clusterBuf, disk.storage
      ensures var was, t := old(State()), old(dirTable);
              var cs := Freed(was, t[i]);
              var v1 := was.PutTable(parent, t[i := t[i].Cleared()]);
              State() == Volume(Release(v1.fat, cs), Wipe(v1.disk, cs)).WriteMap()
    {
      var e := dirTable[i];
      dirTable := dirTable[i := e.Cleared()];
      WriteTable(dirTable, parent);
      if e.IsDir() {
        ReleaseOne(e.cluster);
      } else {
        ReleaseChain(e.cluster);
      }
      WriteClusterMap();
    }

    method ReleaseOne(cluster: nat)
      requires Valid() && cluster < CLUSTER_MAP_SIZE
      modifies clusterMap, clusterBuf, disk.storage
      ensures State() == Volume(Release(old(State()).fat, [cluster]), Wipe(old(State()).disk, [cluster]))
    {
      clusterMap[cluster] := EMPTY_ENTRY;
      WipeCluster(cluster);
      ghost var none: seq<nat> := [];
      assert [cluster][..0] == none;
    }

    method Delete(r: Request) returns (code: Code)
      requires Valid() && DeleteDefined(State(), r)
      modifies this`dirTable, clusterMap, clusterBuf, disk.storage
      ensures code == DeleteCode(old(State()), r)
      ensures State() == FileSystem.Delete(old(State()), r)
    {
      if clusterMap[r.parent] != END_OF_FILE {
        return -1;
      }
      dirTable := ReadTable(r.parent);
      var i := FindNamed(r);
      if i == TABLE_SLOTS {
        return 1;
      }
      if dirTable[i].IsDir() {
        if i == 0 {
          return -1;
        }
        var second := ReadTable(dirTable[i].cluster);
        var notEmpty := ScanChildren(second);
        if notEmpty {
          return 2;
        }
      }
      RemoveEntry(r.parent, i);
      return 0;
    }
  }

  // The first and the last cluster taken; zero stands for none.
  predicate EndsOf(cs: seq<nat>, first: nat, last: nat) {
    if cs == [] then first == 0 && last == 0 else first == cs[0] && last == cs[|cs| - 1] != 0
  }

  // Copying one cluster more behind those already copied.
  lemma GatherSplice(was: seq<byte>, disk: Disk, cs: seq<nat>, k: nat)
    requires forall j :: 0 <= j < |cs| ==> cs[j] < CLUSTER_MAP_SIZE
    requires k < |cs| && CLUSTER_SIZE * (k + 1) <= |was|
    ensures Splice(Splice(was, 0, Gather(disk, cs[..k])), CLUSTER_SIZE * k, disk[cs[k]])
            == Splice(was, 0, Gather(disk, cs[..k + 1]))
  {
    GatherExtend(disk, cs, k);
  }
}
