/**
 What each file-system operation does to the cluster map and to the clusters on disk, as functions
 from the state before to the state after. The driver in Fat32Driver.dfy computes these functions
 step by step; the properties of the file system are proved about them.
 */
module FileSystem {
  import opened Layout
  import opened DirectoryTable
  import opened ClusterMap

  type Disk = d: seq<Cluster> | |d| == CLUSTER_MAP_SIZE witness seq<Cluster>(CLUSTER_MAP_SIZE, _ => ZeroCluster())

  // fat is the driver's cached map; the copy on disk is cluster 1.
  datatype Volume = Volume(fat: FatMap, disk: Disk)
  {
    function Table(c: nat): DirectoryTable.Table
      requires c < CLUSTER_MAP_SIZE
    {
      DecodeTable(disk[c])
    }

    function PutTable(c: nat, t: DirectoryTable.Table): Volume
      requires c < CLUSTER_MAP_SIZE
    {
      Volume(fat, disk[c := EncodeTable(t)])
    }

    function WriteMap(): Volume {
      Volume(fat, disk[FAT_CLUSTER := EncodeMap(fat)])
    }

    // The map a restart would load is the cached one.
    predicate Synced() {
      DecodeMap(disk[FAT_CLUSTER]) == fat
    }
  }

  lemma PutTableReads(v: Volume, c: nat, t: DirectoryTable.Table)
    requires c < CLUSTER_MAP_SIZE
    ensures v.PutTable(c, t).Table(c) == t
    ensures forall x: nat :: x < CLUSTER_MAP_SIZE && x != c ==> v.PutTable(c, t).Table(x) == v.Table(x)
  {
    DecodeEncodeTable(t);
  }

  datatype Request = Request(name: Name, ext: Ext, parent: u32, bufferSize: u32)

  // Return codes are the C functions' own.
  type Code = int

  // ---- File data ----

  function Gather(disk: Disk, cs: seq<nat>): (data: seq<byte>)
    requires forall k :: 0 <= k < |cs| ==> cs[k] < CLUSTER_MAP_SIZE
    ensures |data| == CLUSTER_SIZE * |cs|
  {
    if cs == [] then [] else Gather(disk, cs[..|cs| - 1]) + disk[cs[|cs| - 1]]
  }

  lemma GatherExtend(disk: Disk, cs: seq<nat>, k: nat)
    requires forall j :: 0 <= j < |cs| ==> cs[j] < CLUSTER_MAP_SIZE
    requires k < |cs|
    ensures Gather(disk, cs[..k + 1]) == Gather(disk, cs[..k]) + disk[cs[k]]
  {
    assert cs[..k + 1][..k] == cs[..k];
  }

  function Piece(data: seq<byte>, k: nat): Cluster
    requires CLUSTER_SIZE * (k + 1) <= |data|
  {
    data[CLUSTER_SIZE * k..CLUSTER_SIZE * (k + 1)]
  }

  function Store(disk: Disk, cs: seq<nat>, data: seq<byte>): Disk
    requires forall k :: 0 <= k < |cs| ==> cs[k] < CLUSTER_MAP_SIZE
    requires CLUSTER_SIZE * |cs| <= |data|
  {
    if cs == [] then disk
    else Store(disk, cs[..|cs| - 1], data)[cs[|cs| - 1] := Piece(data, |cs| - 1)]
  }

  function Wipe(disk: Disk, cs: seq<nat>): Disk
    requires forall k :: 0 <= k < |cs| ==> cs[k] < CLUSTER_MAP_SIZE
  {
    if cs == [] then disk else Wipe(disk, cs[..|cs| - 1])[cs[|cs| - 1] := ZeroCluster()]
  }

  lemma StoreExtend(disk: Disk, cs: seq<nat>, c: nat, data: seq<byte>)
    requires forall k :: 0 <= k < |cs| ==> cs[k] < CLUSTER_MAP_SIZE
    requires c < CLUSTER_MAP_SIZE && CLUSTER_SIZE * (|cs| + 1) <= |data|
    ensures Store(disk, cs + [c], data) == Store(disk, cs, data)[c := Piece(data, |cs|)]
  {
    assert (cs + [c])[..|cs|] == cs;
  }

  lemma {:induction false} StoreElsewhere(disk: Disk, cs: seq<nat>, data: seq<byte>)
    requires forall k :: 0 <= k < |cs| ==> cs[k] < CLUSTER_MAP_SIZE
    requires CLUSTER_SIZE * |cs| <= |data|
    ensures forall c: nat :: c < CLUSTER_MAP_SIZE && c !in cs ==> Store(disk, cs, data)[c] == disk[c]
  {
    if cs != [] {
      StoreElsewhere(disk, cs[..|cs| - 1], data);
    }
  }

  lemma {:induction false} GatherFrame(disk: Disk, disk': Disk, cs: seq<nat>)
    requires forall k :: 0 <= k < |cs| ==> cs[k] < CLUSTER_MAP_SIZE && disk'[cs[k]] == disk[cs[k]]
    ensures Gather(disk', cs) == Gather(disk, cs)
  {
    if cs != [] {
      GatherFrame(disk, disk', cs[..|cs| - 1]);
    }
  }

  // Storing into an ascending list of clusters and gathering from it gives the data back.
  lemma {:induction false} GatherStore(disk: Disk, cs: seq<nat>, data: seq<byte>)
    requires Ascending(cs)
    requires CLUSTER_SIZE * |cs| <= |data|
    ensures Gather(Store(disk, cs, data), cs) == data[..CLUSTER_SIZE * |cs|]
  {
    if cs != [] {
      var n := |cs| - 1;
      var init := cs[..n];
      GatherStore(disk, init, data);
      GatherFrame(Store(disk, init, data), Store(disk, cs, data), init);
      assert data[..CLUSTER_SIZE * |cs|] == data[..CLUSTER_SIZE * n] + Piece(data, n);
    }
  }

  lemma WipeNext(disk: Disk, cs: seq<nat>, k: nat)
    requires (forall j :: 0 <= j < |cs| ==> cs[j] < CLUSTER_MAP_SIZE) && k < |cs|
    ensures Wipe(disk, cs[..k + 1]) == Wipe(disk, cs[..k])[cs[k] := ZeroCluster()]
  {
    assert cs[..k + 1][..k] == cs[..k];
  }

  lemma {:induction false} WipePointwise(disk: Disk, cs: seq<nat>)
    requires forall k :: 0 <= k < |cs| ==> cs[k] < CLUSTER_MAP_SIZE
    ensures forall c: nat :: c < CLUSTER_MAP_SIZE ==>
              Wipe(disk, cs)[c] == if c in cs then ZeroCluster() else disk[c]
  {
    if cs != [] {
      var init := cs[..|cs| - 1];
      WipePointwise(disk, init);
      assert cs == init + [cs[|cs| - 1]];
    }
  }

  // ---- Directory tables ----

  function DirEntryFor(name: Name, c: nat): DirEntry
    requires c < CLUSTER_MAP_SIZE
  {
    BLANK.(name := name, attribute := ATTR_SUBDIRECTORY, userAttribute := UATTR_NOT_EMPTY, cluster := c)
  }

  // A fresh table: itself, its parent, and 62 blank slots.
  function NewTable(name: Name, self: nat, parentName: Name, parent: nat): (t: Table)
    requires self < CLUSTER_MAP_SIZE && parent < CLUSTER_MAP_SIZE
  {
    [DirEntryFor(name, self), DirEntryFor(parentName, parent)] + seq(TABLE_SLOTS - 2, _ => BLANK)
  }

  // The table with e's fields written over the first free slot, if there is one. The fields the
  // file system does not use keep what the slot held.
  function Insert(t: Table, e: DirEntry): Table {
    var i := First(t, FreeSlot, 0);
    if i < TABLE_SLOTS then t[i := e.(created := t[i].created, modified := t[i].modified)] else t
  }

  // create_directory_table
  function CreateDirectoryTable(v: Volume, name: Name, parent: nat, self: nat): Volume
    requires parent < CLUSTER_MAP_SIZE && self < CLUSTER_MAP_SIZE
  {
    var parentTable := v.Table(parent);
    var v1 := v.PutTable(self, NewTable(name, self, parentTable[0].name, parent));
    var v2 := v1.(fat := v1.fat[self := END_OF_FILE]);
    if parent == self && parent == ROOT_CLUSTER then v2
    else v2.PutTable(parent, Insert(parentTable, DirEntryFor(name, self)))
  }

  // ---- Formatting and mounting ----

  const ROOT_NAME: Name := [0x72, 0x6F, 0x6F, 0x74, 0, 0, 0, 0]

  function Ascii(s: string): seq<byte>
    ensures |Ascii(s)| == |s|
  {
    seq(|s|, i requires 0 <= i < |s| => s[i] as int % 0x100)
  }

  const SIGNATURE_TEXT: string :=
    "Course          " + "Designed by     " + "Lab Sister ITB  " + "Made with <3    " + "-----------2024\n"

  function Signature(): (b: seq<byte>)
    ensures |b| == BLOCK_SIZE
  {
    Ascii(SIGNATURE_TEXT) + seq(BLOCK_SIZE - |SIGNATURE_TEXT| - 2, _ => 0) + Ascii("Ok")
  }

  // The text at the start, zeros behind it, and "Ok" at the end.
  lemma SignatureLayout()
    ensures Signature()[..6] == [0x43, 0x6F, 0x75, 0x72, 0x73, 0x65] && Signature()[79] == 0x0A
    ensures forall i :: 80 <= i < 510 ==> Signature()[i] == 0
    ensures Signature()[510] == 0x4F && Signature()[511] == 0x6B
  {
    assert |SIGNATURE_TEXT| == 80;
  }

  function FreshMap(): FatMap {
    [CLUSTER_0_VALUE, CLUSTER_1_VALUE, END_OF_FILE] + seq(CLUSTER_MAP_SIZE - 3, _ => EMPTY_ENTRY)
  }

  // create_fat32
  function Format(v: Volume): Volume
  {
    var boot := v.disk[0 := Signature() + v.disk[0][BLOCK_SIZE..]];
    var v1 := Volume(FreshMap(), boot).PutTable(ROOT_CLUSTER, BlankTable()[0 := BLANK.(name := ROOT_NAME)]);
    CreateDirectoryTable(v1, ROOT_NAME, ROOT_CLUSTER, ROOT_CLUSTER)
  }

  predicate HasSignature(v: Volume) {
    v.disk[0][..BLOCK_SIZE] == Signature()
  }

  // initialize_filesystem_fat32
  function Mount(v: Volume): Volume
  {
    if HasSignature(v) then v.(fat := DecodeMap(v.disk[FAT_CLUSTER])) else Format(v)
  }

  // ---- read_directory ----

  // Some used slot below n has this name and is, or is not, a directory.
  predicate NamedBelow(t: Table, name: Name, dirs: bool, n: nat)
    requires n <= TABLE_SLOTS
  {
    exists i :: 0 <= i < n && t[i].Used() && t[i].name == name && t[i].IsDir() == dirs
  }

  // What the scan of the directory concludes.
  function ScanForDirectory(t: Table, r: Request): Code {
    if First(t, DirNamed(r.name), 0) < TABLE_SLOTS then 0
    else if NamedBelow(t, r.name, false, TABLE_SLOTS) then 1
    else 2
  }

  function ReadDirectoryCode(v: Volume, r: Request): Code
    requires r.parent < CLUSTER_MAP_SIZE
  {
    if r.bufferSize != CLUSTER_SIZE || v.fat[r.parent] != END_OF_FILE then -1
    else ScanForDirectory(v.Table(r.parent), r)
  }

  // ---- read ----

  function ScanForFile(t: Table, r: Request): Code {
    var i := First(t, FileNamed(r.name, r.ext), 0);
    if i < TABLE_SLOTS then (if t[i].filesize > r.bufferSize then 2 else 0)
    else if NamedBelow(t, r.name, true, TABLE_SLOTS) then 1
    else if !NamedBelow(t, r.name, false, TABLE_SLOTS) then 3
    else -1
  }

  function ReadCode(v: Volume, r: Request): Code
    requires r.parent < CLUSTER_MAP_SIZE
  {
    if v.fat[r.parent] != END_OF_FILE then -1 else ScanForFile(v.Table(r.parent), r)
  }

  // The slot a successful read reads from.
  function ReadSlot(v: Volume, r: Request): (i: nat)
    requires r.parent < CLUSTER_MAP_SIZE && ReadCode(v, r) == 0
    ensures i < TABLE_SLOTS
  {
    First(v.Table(r.parent), FileNamed(r.name, r.ext), 0)
  }

  function ReadData(v: Volume, r: Request): seq<byte>
    requires r.parent < CLUSTER_MAP_SIZE && ReadCode(v, r) == 0
    requires Ends(v.fat, v.Table(r.parent)[ReadSlot(v, r)].cluster)
  {
    Gather(v.disk, Chain(v.fat, v.Table(r.parent)[ReadSlot(v, r)].cluster))
  }

  // The memory a read stores to is bounded by the size it checks: the walk is defined and copies
  // exactly filesize bytes.
  predicate ReadDefined(v: Volume, r: Request) {
    && r.parent < CLUSTER_MAP_SIZE
    && (ReadCode(v, r) == 0 ==>
          var e := v.Table(r.parent)[ReadSlot(v, r)];
          Ends(v.fat, e.cluster) && CLUSTER_SIZE * |Chain(v.fat, e.cluster)| <= e.filesize)
  }

  predicate ReadDirectoryDefined(v: Volume, r: Request) {
    && r.parent < CLUSTER_MAP_SIZE
    && (ReadDirectoryCode(v, r) == 0 ==>
          v.Table(r.parent)[First(v.Table(r.parent), DirNamed(r.name), 0)].cluster < CLUSTER_MAP_SIZE)
  }

  // ---- write ----

  function NeededClusters(size: u32): (n: nat)
    ensures 1 <= n && size <= CLUSTER_SIZE * n
    ensures size > 0 ==> CLUSTER_SIZE * (n - 1) < size
  {
    var n := size / CLUSTER_SIZE + if size % CLUSTER_SIZE != 0 then 1 else 0;
    if n == 0 then 1 else n
  }

  // An existing entry that stops the request: a directory of that name for a new directory, any
  // entry of that name and extension for a new file.
  predicate Collides(e: DirEntry, r: Request) {
    && e.Used() && e.name == r.name
    && ((e.IsDir() && r.bufferSize == 0) || (r.bufferSize != 0 && e.ext == r.ext))
  }

  predicate Taken(t: Table, r: Request) {
    exists i :: 0 <= i < TABLE_SLOTS && Collides(t[i], r)
  }

  function WriteCode(v: Volume, r: Request): Code
    requires r.parent < CLUSTER_MAP_SIZE
  {
    if v.fat[r.parent] != END_OF_FILE then 2
    else
      var t := v.Table(r.parent);
      if Taken(t, r) then 1
      else if First(t, FreeSlot, 0) == TABLE_SLOTS then -1
      else if NeededClusters(r.bufferSize) > |FreeClusters(v.fat)| then -1
      else 0
  }

  function Allocated(v: Volume, r: Request): (cs: seq<nat>)
    requires r.parent < CLUSTER_MAP_SIZE && WriteCode(v, r) == 0
    ensures |cs| == NeededClusters(r.bufferSize) && Ascending(cs)
  {
    FirstFit(v.fat, NeededClusters(r.bufferSize))
  }

  function FileEntryFor(r: Request, first: nat): DirEntry
    requires first < CLUSTER_MAP_SIZE && NeededClusters(r.bufferSize) <= CLUSTER_MAP_SIZE
  {
    DirEntry(r.name, r.ext, 0, UATTR_NOT_EMPTY, BLANK.created, first, BLANK.modified,
             NeededClusters(r.bufferSize) * CLUSTER_SIZE)
  }

  // The memory the C code reads for a file: whole clusters, so up to 2047 bytes past bufferSize.
  predicate Readable(r: Request, data: seq<byte>) {
    r.bufferSize == 0 || CLUSTER_SIZE * NeededClusters(r.bufferSize) <= |data|
  }

  function Write(v: Volume, r: Request, data: seq<byte>): Volume
    requires r.parent < CLUSTER_MAP_SIZE && Readable(r, data)
  {
    if WriteCode(v, r) != 0 then v
    else
      var cs := Allocated(v, r);
      var linked := v.(fat := LinkChain(v.fat, cs));
      if r.bufferSize == 0 then
        CreateDirectoryTable(linked, r.name, r.parent, cs[0]).WriteMap()
      else
        var stored := linked.(disk := Store(v.disk, cs, data));
        stored.PutTable(r.parent, Insert(stored.Table(r.parent), FileEntryFor(r, cs[0]))).WriteMap()
  }

  // ---- delete ----

  // The scan for children starts at slot 3.
  predicate Busy(t: Table) {
    exists j :: 3 <= j < TABLE_SLOTS && t[j].Used()
  }

  function DeleteSlot(v: Volume, r: Request): nat
    requires r.parent < CLUSTER_MAP_SIZE
  {
    First(v.Table(r.parent), Named(r.name, r.ext), 0)
  }

  // The map and disk accesses a delete makes through the matched entry stay inside them.
  predicate DeleteDefined(v: Volume, r: Request) {
    && r.parent < CLUSTER_MAP_SIZE
    && (v.fat[r.parent] == END_OF_FILE && DeleteSlot(v, r) < TABLE_SLOTS ==>
          var e := v.Table(r.parent)[DeleteSlot(v, r)];
          e.cluster < CLUSTER_MAP_SIZE && (!e.IsDir() ==> Ends(v.fat, e.cluster)))
  }

  function DeleteCode(v: Volume, r: Request): Code
    requires DeleteDefined(v, r)
  {
    if v.fat[r.parent] != END_OF_FILE then -1
    else
      var i := DeleteSlot(v, r);
      if i == TABLE_SLOTS then 1
      else
        var e := v.Table(r.parent)[i];
        if e.IsDir() && i == 0 then -1
        else if e.IsDir() && Busy(v.Table(e.cluster)) then 2
        else 0
  }

  // The clusters a successful delete frees.
  function Freed(v: Volume, e: DirEntry): (cs: seq<nat>)
    requires e.cluster < CLUSTER_MAP_SIZE && (!e.IsDir() ==> Ends(v.fat, e.cluster))
    ensures forall k :: 0 <= k < |cs| ==> cs[k] < CLUSTER_MAP_SIZE
    ensures e.cluster in cs
  {
    if e.IsDir() then [e.cluster] else Chain(v.fat, e.cluster)
  }

  function Delete(v: Volume, r: Request): Volume
    requires DeleteDefined(v, r)
  {
    if DeleteCode(v, r) != 0 then v
    else
      var t, i := v.Table(r.parent), DeleteSlot(v, r);
      var cs := Freed(v, t[i]);
      var v1 := v.PutTable(r.parent, t[i := t[i].Cleared()]);
      Volume(Release(v1.fat, cs), Wipe(v1.disk, cs)).WriteMap()
  }
}
