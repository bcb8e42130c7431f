/**
 Whole runs of the file system from a freshly formatted disk: the invariant, the view as a map that
 changes one binding at a time, files that stay readable, and restarts that lose nothing.
 */
module FileSystemRuns {
  import opened Layout
  import opened DirectoryTable
  import opened ClusterMap
  import opened FileSystem
  import opened VolumeInvariant
  import opened VolumeOperations
  import opened VolumeView
  import opened FileSystemTheorems

  // ---- One step ----

  // Reads and directory reads change nothing, so a run is its writes and deletes.
  datatype Op = WriteOp(r: Request, data: seq<byte>) | DeleteOp(r: Request)

  predicate Legal(v: Volume, g: Shape, op: Op) {
    match op
    case WriteOp(r, data) => AimsAtDirectory(v, g, r) && Readable(r, data)
    case DeleteOp(r) => AimsAtDirectory(v, g, r) && DeleteDefined(v, r) && (DeleteCode(v, r) == 0 ==> Removable(v, r))
  }

  function CodeOf(v: Volume, g: Shape, op: Op): Code
    requires Legal(v, g, op)
  {
    match op
    case WriteOp(r, data) => WriteCode(v, r)
    case DeleteOp(r) => DeleteCode(v, r)
  }

  function Step(v: Volume, g: Shape, op: Op): Volume
    requires Legal(v, g, op)
  {
    match op
    case WriteOp(r, data) => Write(v, r, data)
    case DeleteOp(r) => Delete(v, r)
  }

  function StepShape(v: Volume, g: Shape, op: Op): Shape
    requires Legal(v, g, op)
  {
    match op
    case WriteOp(r, data) => WriteShape(v, g, r)
    case DeleteOp(r) => DeleteShape(v, g, r)
  }

  // The abstract machine: a map, changed one binding at a time.
  datatype Change = Same | Put(key: Key, content: Content) | Drop(key: Key)

  function Apply(view: View, c: Change): View {
    match c
    case Same => view
    case Put(k, x) => view[k := x]
    case Drop(k) => view - {k}
  }

  ghost predicate Possible(view: View, c: Change) {
    match c
    case Same => true
    case Put(k, _) => k !in view
    case Drop(k) => k in view
  }

  function ChangeOf(v: Volume, g: Shape, op: Op): Change
    requires Legal(v, g, op)
  {
    if CodeOf(v, g, op) != 0 then Same
    else
      match op
      case WriteOp(r, data) => Put(WriteKey(r), WriteContent(v, r, data))
      case DeleteOp(r) => Drop(DeleteKey(v, r))
  }

  // A failing operation changes nothing; a successful one makes one change of the map.
  lemma StepRefines(v: Volume, g: Shape, op: Op)
    requires WellFormed(v, g) && Legal(v, g, op)
    ensures WellFormed(Step(v, g, op), StepShape(v, g, op))
    ensures CodeOf(v, g, op) != 0 ==> Step(v, g, op) == v
    ensures Possible(ViewOf(v, g), ChangeOf(v, g, op))
    ensures ViewOf(Step(v, g, op), StepShape(v, g, op)) == Apply(ViewOf(v, g), ChangeOf(v, g, op))
  {
    match op
    case WriteOp(r, data) =>
      WriteKeepsWellFormed(v, g, r, data);
      if WriteCode(v, r) == 0 {
        WriteRefines(v, g, r, data);
      }
    case DeleteOp(r) =>
      DeleteKeepsWellFormed(v, g, r);
      if DeleteCode(v, r) == 0 {
        DeleteRefines(v, g, r);
      }
  }

  // ---- Runs ----

  predicate RunLegal(v: Volume, g: Shape, ops: seq<Op>)
    decreases |ops|
  {
    ops == [] || (Legal(v, g, ops[0]) && RunLegal(Step(v, g, ops[0]), StepShape(v, g, ops[0]), ops[1..]))
  }

  function Run(v: Volume, g: Shape, ops: seq<Op>): Volume
    requires RunLegal(v, g, ops)
    decreases |ops|
  {
    if ops == [] then v else Run(Step(v, g, ops[0]), StepShape(v, g, ops[0]), ops[1..])
  }

  function RunShape(v: Volume, g: Shape, ops: seq<Op>): Shape
    requires RunLegal(v, g, ops)
    decreases |ops|
  {
    if ops == [] then g else RunShape(Step(v, g, ops[0]), StepShape(v, g, ops[0]), ops[1..])
  }

  function Changes(v: Volume, g: Shape, ops: seq<Op>): seq<Change>
    requires RunLegal(v, g, ops)
    decreases |ops|
  {
    if ops == [] then []
    else [ChangeOf(v, g, ops[0])] + Changes(Step(v, g, ops[0]), StepShape(v, g, ops[0]), ops[1..])
  }

  function ApplyAll(view: View, cs: seq<Change>): View {
    if cs == [] then view else ApplyAll(Apply(view, cs[0]), cs[1..])
  }

  ghost predicate AllPossible(view: View, cs: seq<Change>) {
    cs == [] || (Possible(view, cs[0]) && AllPossible(Apply(view, cs[0]), cs[1..]))
  }

  lemma {:induction false} RunRefines(v: Volume, g: Shape, ops: seq<Op>)
    requires WellFormed(v, g) && RunLegal(v, g, ops)
    ensures WellFormed(Run(v, g, ops), RunShape(v, g, ops))
    ensures AllPossible(ViewOf(v, g), Changes(v, g, ops))
    ensures ViewOf(Run(v, g, ops), RunShape(v, g, ops)) == ApplyAll(ViewOf(v, g), Changes(v, g, ops))
    decreases |ops|
  {
    if ops != [] {
      StepRefines(v, g, ops[0]);
      RunRefines(Step(v, g, ops[0]), StepShape(v, g, ops[0]), ops[1..]);
      assert Changes(v, g, ops)[1..] == Changes(Step(v, g, ops[0]), StepShape(v, g, ops[0]), ops[1..]);
    }
  }

  // On the abstract machine a binding stays until it is dropped: nothing overwrites it.
  lemma {:induction false} BindingStays(view: View, cs: seq<Change>, k: Key)
    requires AllPossible(view, cs) && k in view && Drop(k) !in cs
    ensures k in ApplyAll(view, cs) && ApplyAll(view, cs)[k] == view[k]
    decreases |cs|
  {
    if cs != [] {
      assert cs[0] != Drop(k);
      BindingStays(Apply(view, cs[0]), cs[1..], k);
    }
  }

  // ---- What is written is what is read, until it is deleted ----

  // The read succeeds, its walk stays inside the map, and it yields exactly these bytes.
  predicate Reads(v: Volume, q: Request, bytes: seq<byte>) {
    && q.parent < CLUSTER_MAP_SIZE && ReadCode(v, q) == 0
    && Ends(v.fat, v.Table(q.parent)[ReadSlot(v, q)].cluster)
    && ReadData(v, q) == bytes
  }

  lemma WrittenFileSeen(v: Volume, g: Shape, r: Request, data: seq<byte>)
    requires WellFormed(v, g) && AimsAtDirectory(v, g, r) && Readable(r, data)
    requires WriteCode(v, r) == 0 && r.bufferSize != 0
    ensures WellFormed(Write(v, r, data), WriteShape(v, g, r))
    ensures FileKey(r) in ViewOf(Write(v, r, data), WriteShape(v, g, r))
    ensures ViewOf(Write(v, r, data), WriteShape(v, g, r))[FileKey(r)]
            == Data(data[..CLUSTER_SIZE * NeededClusters(r.bufferSize)])
  {
    WriteKeepsWellFormed(v, g, r, data);
    WriteRefines(v, g, r, data);
    assert WriteKey(r) == FileKey(r);
  }

  lemma BindingStaysInRun(v: Volume, g: Shape, ops: seq<Op>, k: Key)
    requires WellFormed(v, g) && RunLegal(v, g, ops) && k in ViewOf(v, g) && Drop(k) !in Changes(v, g, ops)
    ensures WellFormed(Run(v, g, ops), RunShape(v, g, ops))
    ensures k in ViewOf(Run(v, g, ops), RunShape(v, g, ops))
    ensures ViewOf(Run(v, g, ops), RunShape(v, g, ops))[k] == ViewOf(v, g)[k]
  {
    RunRefines(v, g, ops);
    BindingStays(ViewOf(v, g), Changes(v, g, ops), k);
  }

  lemma ReadsBinding(v: Volume, g: Shape, q: Request, bytes: seq<byte>)
    requires WellFormed(v, g) && FileKey(q) in ViewOf(v, g) && ViewOf(v, g)[FileKey(q)] == Data(bytes)
    requires |bytes| <= q.bufferSize
    ensures Reads(v, q, bytes)
  {
    SeenChild(v, g, FileKey(q));
    ReadRefines(v, g, q);
  }

  lemma ReadsBackAfterRun(v: Volume, g: Shape, r: Request, bytes: seq<byte>, ops: seq<Op>, size: u32)
    requires WellFormed(v, g) && RunLegal(v, g, ops) && Drop(FileKey(r)) !in Changes(v, g, ops)
    requires FileKey(r) in ViewOf(v, g) && ViewOf(v, g)[FileKey(r)] == Data(bytes) && |bytes| <= size
    ensures Reads(Run(v, g, ops), r.(bufferSize := size), bytes)
  {
    BindingStaysInRun(v, g, ops, FileKey(r));
    ReadsBinding(Run(v, g, ops), RunShape(v, g, ops), r.(bufferSize := size), bytes);
  }

  // After a successful write of a file, and any later run that does not delete it, a read with a
  // buffer of at least the rounded-up size succeeds and yields the bytes written, and after them only
  // what the caller's memory held up to the end of the last cluster.
  lemma WriteReadRoundTrip(v: Volume, g: Shape, r: Request, data: seq<byte>, ops: seq<Op>, size: u32)
    requires WellFormed(v, g) && AimsAtDirectory(v, g, r) && Readable(r, data)
    requires WriteCode(v, r) == 0 && r.bufferSize != 0
    requires RunLegal(Write(v, r, data), WriteShape(v, g, r), ops)
    requires Drop(FileKey(r)) !in Changes(Write(v, r, data), WriteShape(v, g, r), ops)
    requires size >= CLUSTER_SIZE * NeededClusters(r.bufferSize)
    ensures r.bufferSize <= CLUSTER_SIZE * NeededClusters(r.bufferSize)
    ensures Reads(Run(Write(v, r, data), WriteShape(v, g, r), ops), r.(bufferSize := size),
                  data[..CLUSTER_SIZE * NeededClusters(r.bufferSize)])
  {
    WrittenFileSeen(v, g, r, data);
    ReadsBackAfterRun(Write(v, r, data), WriteShape(v, g, r), r,
                      data[..CLUSTER_SIZE * NeededClusters(r.bufferSize)], ops, size);
  }

  // ---- Formatting ----

  function RootShape(): Shape {
    Shape({ROOT_CLUSTER}, [Reserved, Reserved, Reserved] + seq(CLUSTER_MAP_SIZE - 3, _ => Nobody), map[ROOT_CLUSTER := 0])
  }

  lemma FormatOnDisk(v: Volume)
    ensures var f := Format(v);
            && f.fat == FreshMap() && HasSignature(f)
            && f.disk[FAT_CLUSTER] == v.disk[FAT_CLUSTER]
            && (forall x: nat :: 3 <= x < CLUSTER_MAP_SIZE ==> f.disk[x] == v.disk[x])
            && f.Table(ROOT_CLUSTER) == NewTable(ROOT_NAME, ROOT_CLUSTER, ROOT_NAME, ROOT_CLUSTER)
  {
    var boot := v.disk[0 := Signature() + v.disk[0][BLOCK_SIZE..]];
    var first: Table := BlankTable()[0 := BLANK.(name := ROOT_NAME)];
    PutTableReads(Volume(FreshMap(), boot), ROOT_CLUSTER, first);
    var v1 := Volume(FreshMap(), boot).PutTable(ROOT_CLUSTER, first);
    PutTableReads(v1, ROOT_CLUSTER, NewTable(ROOT_NAME, ROOT_CLUSTER, ROOT_NAME, ROOT_CLUSTER));
    assert v1.fat[ROOT_CLUSTER := END_OF_FILE] == v1.fat;
  }

  lemma FreshMapOk()
    ensures MapOk(FreshMap(), RootShape())
  {
    forall c: nat ensures CellOk(FreshMap(), RootShape(), c) {
    }
  }

  function RootTable(): Table {
    NewTable(ROOT_NAME, ROOT_CLUSTER, ROOT_NAME, ROOT_CLUSTER)
  }

  lemma RootTableSlots(i: nat)
    requires i < TABLE_SLOTS
    ensures RootTable()[i].Used() <==> i < 2
  {
  }

  lemma FreshHasNoChild(m: Meta, d: nat, i: nat)
    requires m.tables[ROOT_CLUSTER] == RootTable()
    ensures !Child(m, RootShape(), d, i)
  {
    if i < TABLE_SLOTS {
      RootTableSlots(i);
    }
  }

  lemma FreshDirsOk(m: Meta)
    requires m.fat == FreshMap() && m.tables[ROOT_CLUSTER] == RootTable()
    ensures DirsOk(m, RootShape())
  {
    forall d: nat ensures DirOk(m, RootShape(), d) {
    }
  }

  lemma FreshKeysOk(m: Meta)
    requires m.tables[ROOT_CLUSTER] == RootTable()
    ensures KeysOk(m, RootShape())
  {
    forall i: nat, j: nat | i < j < TABLE_SLOTS && RootTable()[i].Used() && RootTable()[j].Used() ensures i == 0 && j == 1 {
      RootTableSlots(i);
      RootTableSlots(j);
    }
  }

  lemma FreshInv(m: Meta)
    requires m.fat == FreshMap() && m.tables[ROOT_CLUSTER] == RootTable()
    ensures Inv(m, RootShape())
  {
    var g := RootShape();
    FreshMapOk();
    FreshDirsOk(m);
    FreshKeysOk(m);
    forall c: nat ensures OwnerOk(m, g, c) {
    }
    forall d: nat, i: nat ensures ChildOk(m, g, d, i) {
      FreshHasNoChild(m, d, i);
    }
  }

  // A freshly formatted volume is well formed and empty.
  lemma FormatWellFormed(v: Volume)
    ensures WellFormed(Format(v), RootShape())
    ensures ViewOf(Format(v), RootShape()) == imap[]
  {
    FormatOnDisk(v);
    FreshInv(MetaOf(Format(v)));
    EmptyView(Format(v), RootShape());
  }

  lemma EmptyView(v: Volume, g: Shape)
    requires g == RootShape() && v.Table(ROOT_CLUSTER) == RootTable()
    ensures ViewOf(v, g) == imap[]
  {
    forall k ensures k !in ViewOf(v, g) {
      if k in ViewOf(v, g) {
        FreshHasNoChild(MetaOf(v), k.dir, SlotOf(v, k));
        SeenChild(v, g, k);
      }
    }
  }

  // Every state reached from a format is well formed, and its view is built by the changes made.
  lemma FormattedRun(v: Volume, ops: seq<Op>)
    requires RunLegal(Format(v), RootShape(), ops)
    ensures WellFormed(Run(Format(v), RootShape(), ops), RunShape(Format(v), RootShape(), ops))
    ensures ViewOf(Run(Format(v), RootShape(), ops), RunShape(Format(v), RootShape(), ops))
            == ApplyAll(imap[], Changes(Format(v), RootShape(), ops))
    ensures |RunShape(Format(v), RootShape(), ops).owner| == CLUSTER_MAP_SIZE
    ensures |FreeClusters(Run(Format(v), RootShape(), ops).fat)|
            + |OwnedBelow(RunShape(Format(v), RootShape(), ops), CLUSTER_MAP_SIZE)| == CLUSTER_MAP_SIZE - 3
  {
    FormatWellFormed(v);
    RunRefines(Format(v), RootShape(), ops);
    Conservation(MetaOf(Run(Format(v), RootShape(), ops)), RunShape(Format(v), RootShape(), ops));
  }

  // ---- Mounting ----

  // Mounting a disk without the signature formats it: the driver is left on an empty volume that carries
  // the signature, with everything past the root's cluster as it was.
  lemma MountUnsigned(v: Volume)
    requires !HasSignature(v)
    ensures WellFormed(Mount(v), RootShape()) && ViewOf(Mount(v), RootShape()) == imap[]
    ensures HasSignature(Mount(v))
    ensures forall x: nat :: 3 <= x < CLUSTER_MAP_SIZE ==> Mount(v).disk[x] == v.disk[x]
  {
    FormatOnDisk(v);
    FormatWellFormed(v);
  }

  // So every state reached from there is well formed, and its view is built by the changes made.
  lemma MountedRun(v: Volume, ops: seq<Op>)
    requires !HasSignature(v) && RunLegal(Mount(v), RootShape(), ops)
    ensures WellFormed(Run(Mount(v), RootShape(), ops), RunShape(Mount(v), RootShape(), ops))
    ensures ViewOf(Run(Mount(v), RootShape(), ops), RunShape(Mount(v), RootShape(), ops))
            == ApplyAll(imap[], Changes(Mount(v), RootShape(), ops))
  {
    MountUnsigned(v);
    RunRefines(Mount(v), RootShape(), ops);
  }

  // And once one operation has succeeded, mounting again finds it.
  lemma MountedRunRestarts(v: Volume, ops: seq<Op>)
    requires !HasSignature(v) && RunLegal(Mount(v), RootShape(), ops)
    requires SomeChange(Changes(Mount(v), RootShape(), ops))
    ensures Mount(Run(Mount(v), RootShape(), ops)) == Run(Mount(v), RootShape(), ops)
  {
    MountUnsigned(v);
    RestartFindsRun(Mount(v), RootShape(), ops);
  }

  // ---- Restarting ----

  lemma StepSyncs(v: Volume, g: Shape, op: Op)
    requires WellFormed(v, g) && Legal(v, g, op) && HasSignature(v)
    ensures HasSignature(Step(v, g, op))
    ensures v.Synced() || CodeOf(v, g, op) == 0 ==> Step(v, g, op).Synced()
  {
    if CodeOf(v, g, op) == 0 {
      match op
      case WriteOp(r, data) =>
        assert DirOk(MetaOf(v), g, r.parent);
        WriteOnDisk(v, r, data);
        AllocatedFree(v, r);
      case DeleteOp(r) =>
        assert DirOk(MetaOf(v), g, r.parent);
        FreedFacts(v, g, r);
        DeleteOnDisk(v, r);
    }
  }

  ghost predicate SomeChange(cs: seq<Change>) {
    exists c :: c in cs && c != Same
  }

  lemma ChangeLater(first: Change, rest: seq<Change>)
    requires SomeChange([first] + rest) && first == Same
    ensures SomeChange(rest)
  {
    var c :| c in [first] + rest && c != Same;
    assert c in rest;
  }

  // Once any operation has succeeded, a restart finds exactly the state the run ended in.
  lemma {:induction false} RestartFindsRun(v: Volume, g: Shape, ops: seq<Op>)
    requires WellFormed(v, g) && RunLegal(v, g, ops) && HasSignature(v)
    requires v.Synced() || SomeChange(Changes(v, g, ops))
    ensures Mount(Run(v, g, ops)) == Run(v, g, ops)
    decreases |ops|
  {
    if ops != [] {
      StepRefines(v, g, ops[0]);
      StepSyncs(v, g, ops[0]);
      var v1, g1, rest := Step(v, g, ops[0]), StepShape(v, g, ops[0]), ops[1..];
      if !v1.Synced() {
        ChangeLater(ChangeOf(v, g, ops[0]), Changes(v1, g1, rest));
      }
      RestartFindsRun(v1, g1, rest);
    }
  }

  // Formatting itself does not write the map: a restart right after it finds the formatted volume
  // if and only if cluster 1 happened to hold the fresh map before.
  lemma FormatThenRestart(v: Volume)
    ensures Mount(Format(v)) == Format(v) <==> DecodeMap(v.disk[FAT_CLUSTER]) == FreshMap()
  {
    FormatOnDisk(v);
  }

  // On a blank disk it does not, and the root then refuses every request.
  lemma BlankDiskLosesFormat(v: Volume, r: Request)
    requires v.disk[FAT_CLUSTER] == ZeroCluster() && r.parent == ROOT_CLUSTER
    ensures Mount(Format(v)) != Format(v)
    ensures WriteCode(Mount(Format(v)), r) == 2 && ReadCode(Mount(Format(v)), r) == -1
  {
    FormatOnDisk(v);
    ZeroMapMarksNothing();
    SignedMount(Format(v));
  }

  lemma ZeroMapMarksNothing()
    ensures DecodeMap(ZeroCluster())[ROOT_CLUSTER] == 0
  {
    assert WordBytes(ZeroCluster(), ROOT_CLUSTER) == [0, 0, 0, 0];
  }

  // Mounting a signed disk loads the map and nothing else.
  lemma SignedMount(v: Volume)
    requires HasSignature(v)
    ensures Mount(v).fat == DecodeMap(v.disk[FAT_CLUSTER]) && Mount(v).disk == v.disk
  {
  }
}
