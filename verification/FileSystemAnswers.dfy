/**
 The return codes of the four operations, said in terms of the view: which bindings a directory has,
 what it and its parent are called, how many slots it uses and how much of the volume is owned.
 */
module FileSystemAnswers {
  import opened Counting
  import opened Layout
  import opened DirectoryTable
  import opened ClusterMap
  import opened FileSystem
  import opened VolumeInvariant
  import opened VolumeOperations
  import opened VolumeView

  // A directory of the volume, as every request here is aimed at one.
  ghost predicate At(v: Volume, g: Shape, d: nat) {
    WellFormed(v, g) && d in g.dirs && d < CLUSTER_MAP_SIZE && d < |g.owner| && g.Parent(d) < CLUSTER_MAP_SIZE
  }

  lemma DirectoryIsAt(v: Volume, g: Shape, d: nat)
    requires WellFormed(v, g) && d in g.dirs
    ensures At(v, g, d) && v.fat[d] == END_OF_FILE
  {
    assert DirOk(MetaOf(v), g, d);
  }

  function NameOf(v: Volume, d: nat): Name
    requires d < CLUSTER_MAP_SIZE
  {
    v.Table(d)[0].name
  }

  ghost predicate FileBound(v: Volume, g: Shape, d: nat, name: Name, ext: Ext) {
    Key(d, name, ext, false) in ViewOf(v, g)
  }

  ghost predicate DirBound(v: Volume, g: Shape, d: nat, name: Name) {
    Key(d, name, NO_EXT, true) in ViewOf(v, g)
  }

  // The directory itself or its parent has this name. An extension can only be the empty one.
  ghost predicate Upwards(v: Volume, g: Shape, d: nat, name: Name)
    requires At(v, g, d)
  {
    name == NameOf(v, d) || name == NameOf(v, g.Parent(d))
  }

  // ---- What a directory's slots hold ----

  // Slot i is in use with this name and extension, as a directory or not.
  predicate Slotted(t: Table, i: nat, name: Name, ext: Ext, dir: bool) {
    && i < TABLE_SLOTS && t[i].userAttribute == UATTR_NOT_EMPTY && t[i].name == name && t[i].ext == ext
    && (t[i].attribute == ATTR_SUBDIRECTORY) == dir
  }

  ghost predicate ChildSlotted(t: Table, name: Name, ext: Ext, dir: bool) {
    exists i: nat :: 2 <= i && Slotted(t, i, name, ext, dir)
  }

  lemma BoundIff(v: Volume, g: Shape, k: Key)
    requires At(v, g, k.dir)
    ensures k in ViewOf(v, g) <==> ChildSlotted(v.Table(k.dir), k.name, k.ext, k.isDir)
  {
    var t, i := v.Table(k.dir), SlotOf(v, k);
    if i < TABLE_SLOTS {
      assert Slotted(t, i, k.name, k.ext, k.isDir);
    }
    if j: nat :| 2 <= j && Slotted(t, j, k.name, k.ext, k.isDir) {
      assert Matches(Keyed(k.name, k.ext, k.isDir), t[j]);
    }
  }

  // Every used slot holds the directory itself, its parent, or a binding.
  lemma SlotMeans(v: Volume, g: Shape, d: nat, i: nat)
    requires At(v, g, d) && i < TABLE_SLOTS && v.Table(d)[i].Used()
    ensures v.Table(d)[i].IsDir() ==> v.Table(d)[i].ext == NO_EXT
    ensures i == 0 ==> v.Table(d)[i].IsDir() && v.Table(d)[i].name == NameOf(v, d)
    ensures i == 1 ==> v.Table(d)[i].IsDir() && v.Table(d)[i].name == NameOf(v, g.Parent(d))
    ensures i >= 2 ==> KeyOf(d, v.Table(d)[i]) in ViewOf(v, g)
  {
    assert DirOk(MetaOf(v), g, d);
    if 2 <= i {
      assert Child(MetaOf(v), g, d, i) && ChildOk(MetaOf(v), g, d, i);
      ChildSeen(v, g, d, i);
    }
  }

  // Some used slot is a directory, or a file with this extension, of this name.
  ghost predicate SomeDirectory(t: Table, name: Name) {
    exists i :: 0 <= i < TABLE_SLOTS && t[i].Used() && t[i].IsDir() && t[i].name == name
  }

  lemma DirectoryMeans(v: Volume, g: Shape, d: nat, name: Name)
    requires At(v, g, d) && SomeDirectory(v.Table(d), name)
    ensures DirBound(v, g, d, name) || Upwards(v, g, d, name)
  {
    var t := v.Table(d);
    var i :| 0 <= i < TABLE_SLOTS && t[i].Used() && t[i].IsDir() && t[i].name == name;
    SlotMeans(v, g, d, i);
  }

  lemma NamedDirectory(v: Volume, g: Shape, d: nat, name: Name)
    requires At(v, g, d)
    ensures SomeDirectory(v.Table(d), name) <==> DirBound(v, g, d, name) || Upwards(v, g, d, name)
  {
    var t := v.Table(d);
    assert DirOk(MetaOf(v), g, d);
    BoundIff(v, g, Key(d, name, NO_EXT, true));
    assert t[0].Used() && t[0].IsDir() && t[1].Used() && t[1].IsDir();
    if SomeDirectory(t, name) {
      DirectoryMeans(v, g, d, name);
    }
  }

  lemma NamedFile(v: Volume, g: Shape, d: nat, name: Name, ext: Ext)
    requires At(v, g, d)
    ensures (exists i :: 0 <= i < TABLE_SLOTS && v.Table(d)[i].Used() && !v.Table(d)[i].IsDir()
                         && v.Table(d)[i].name == name && v.Table(d)[i].ext == ext)
            <==> FileBound(v, g, d, name, ext)
  {
    var t := v.Table(d);
    BoundIff(v, g, Key(d, name, ext, false));
    if i :| 0 <= i < TABLE_SLOTS && t[i].Used() && !t[i].IsDir() && t[i].name == name && t[i].ext == ext {
      SlotMeans(v, g, d, i);
    }
  }

  // ---- write ----

  // How many slots are in use.
  function UsedSlots(t: Table): nat {
    Count(seq(TABLE_SLOTS, i requires 0 <= i < TABLE_SLOTS => t[i].userAttribute == UATTR_NOT_EMPTY))
  }

  lemma FullIff(t: Table)
    ensures First(t, FreeSlot, 0) < TABLE_SLOTS <==> UsedSlots(t) < 64
  {
    var used := seq(TABLE_SLOTS, i requires 0 <= i < TABLE_SLOTS => t[i].userAttribute == UATTR_NOT_EMPTY);
    var f := First(t, FreeSlot, 0);
    if f < TABLE_SLOTS {
      SomeFalseCount(used, f);
    } else {
      forall j | 0 <= j < TABLE_SLOTS ensures used[j] {
        assert !Matches(FreeSlot, t[j]);
      }
      AllTrueCount(used);
    }
  }

  function Owned(g: Shape): nat
    requires |g.owner| == CLUSTER_MAP_SIZE
  {
    |OwnedBelow(g, CLUSTER_MAP_SIZE)|
  }

  // The directory has a free slot and the clusters nobody owns hold the data, or a new directory.
  ghost predicate HasSpace(v: Volume, g: Shape, r: Request)
    requires At(v, g, r.parent)
  {
    && UsedSlots(v.Table(r.parent)) < 64
    && Owned(g) < 509 && r.bufferSize <= 2048 * (509 - Owned(g))
  }

  lemma NeededFits(size: u32, free: nat)
    ensures NeededClusters(size) <= free <==> 1 <= free && size <= 2048 * free
  {
    var n := NeededClusters(size);
    if size == 0 {
      assert n == 1;
    } else {
      assert n <= free <==> n - 1 < free;
    }
  }

  lemma SpaceIff(v: Volume, g: Shape, r: Request)
    requires At(v, g, r.parent)
    ensures HasSpace(v, g, r) <==>
              First(v.Table(r.parent), FreeSlot, 0) < TABLE_SLOTS && NeededClusters(r.bufferSize) <= |FreeClusters(v.fat)|
  {
    FullIff(v.Table(r.parent));
    Conservation(MetaOf(v), g);
    NeededFits(r.bufferSize, |FreeClusters(v.fat)|);
  }

  // What stops a write: for a file, a file or a directory of its name and extension; for a directory, a
  // directory of its name. The directory written into and its parent count as directories.
  ghost predicate NameTaken(v: Volume, g: Shape, r: Request)
    requires At(v, g, r.parent)
  {
    if r.bufferSize == 0 then DirBound(v, g, r.parent, r.name) || Upwards(v, g, r.parent, r.name)
    else
      || FileBound(v, g, r.parent, r.name, r.ext)
      || (r.ext == NO_EXT && (DirBound(v, g, r.parent, r.name) || Upwards(v, g, r.parent, r.name)))
  }

  lemma TakenIff(v: Volume, g: Shape, r: Request)
    requires At(v, g, r.parent)
    ensures Taken(v.Table(r.parent), r) <==> NameTaken(v, g, r)
  {
    var t := v.Table(r.parent);
    NamedDirectory(v, g, r.parent, r.name);
    NamedFile(v, g, r.parent, r.name, r.ext);
    if i :| 0 <= i < TABLE_SLOTS && Collides(t[i], r) {
      SlotMeans(v, g, r.parent, i);
    }
    if NameTaken(v, g, r) {
      if r.bufferSize != 0 && FileBound(v, g, r.parent, r.name, r.ext) {
        var i :| 0 <= i < TABLE_SLOTS && t[i].Used() && !t[i].IsDir() && t[i].name == r.name && t[i].ext == r.ext;
        assert Collides(t[i], r);
      } else {
        var i :| 0 <= i < TABLE_SLOTS && t[i].Used() && t[i].IsDir() && t[i].name == r.name;
        SlotMeans(v, g, r.parent, i);
        assert Collides(t[i], r);
      }
    }
  }

  // write into a directory: 1 exactly when the name is taken, else 0 exactly when there is space, and -1
  // otherwise. Aimed at any cluster, 2 exactly when the map does not mark it.
  lemma WriteAnswers(v: Volume, g: Shape, r: Request)
    requires WellFormed(v, g) && r.parent < CLUSTER_MAP_SIZE
    ensures WriteCode(v, r) == 2 <==> v.fat[r.parent] != END_OF_FILE
    ensures r.parent in g.dirs ==>
              && At(v, g, r.parent)
              && (WriteCode(v, r) == 1 <==> NameTaken(v, g, r))
              && (WriteCode(v, r) == 0 <==> !NameTaken(v, g, r) && HasSpace(v, g, r))
              && (WriteCode(v, r) == -1 <==> !NameTaken(v, g, r) && !HasSpace(v, g, r))
  {
    if r.parent in g.dirs {
      DirectoryIsAt(v, g, r.parent);
      TakenIff(v, g, r);
      SpaceIff(v, g, r);
    }
  }

  // ---- delete ----

  // Slot i holds the first entry with the request's name and extension.
  ghost predicate MatchedAt(v: Volume, r: Request, i: nat)
    requires r.parent < CLUSTER_MAP_SIZE
  {
    var t := v.Table(r.parent);
    && (Slotted(t, i, r.name, r.ext, true) || Slotted(t, i, r.name, r.ext, false))
    && forall j: nat :: j < i ==> !Slotted(t, j, r.name, r.ext, true) && !Slotted(t, j, r.name, r.ext, false)
  }

  lemma MatchedIs(v: Volume, r: Request, i: nat)
    requires r.parent < CLUSTER_MAP_SIZE
    ensures MatchedAt(v, r, i) <==> i < TABLE_SLOTS && DeleteSlot(v, r) == i
  {
    var t, s := v.Table(r.parent), DeleteSlot(v, r);
    forall j: nat | j < TABLE_SLOTS
      ensures Matches(Named(r.name, r.ext), t[j]) <==> Slotted(t, j, r.name, r.ext, true) || Slotted(t, j, r.name, r.ext, false)
    {
    }
    if MatchedAt(v, r, i) {
      assert s <= i;
      assert !(s < i);
    }
  }

  // Directory c has a binding in a slot that the emptiness scan looks at.
  ghost predicate SeenBusy(v: Volume, g: Shape, c: nat) {
    exists k: Key :: k in ViewOf(v, g) && k.dir == c && c < CLUSTER_MAP_SIZE && SlotOf(v, k) >= 3
  }

  lemma BusyIff(v: Volume, g: Shape, c: nat)
    requires At(v, g, c)
    ensures Busy(v.Table(c)) <==> SeenBusy(v, g, c)
  {
    if j :| 3 <= j < TABLE_SLOTS && v.Table(c)[j].Used() {
      ChildSeen(v, g, c, j);
      assert KeyOf(c, v.Table(c)[j]) in ViewOf(v, g) && SlotOf(v, KeyOf(c, v.Table(c)[j])) >= 3;
    }
    if k: Key :| k in ViewOf(v, g) && k.dir == c && c < CLUSTER_MAP_SIZE && SlotOf(v, k) >= 3 {
      SeenChild(v, g, k);
    }
  }

  // Something in the directory, itself and its parent included, has this name and extension.
  ghost predicate Present(v: Volume, g: Shape, r: Request)
    requires At(v, g, r.parent)
  {
    || FileBound(v, g, r.parent, r.name, r.ext) || Key(r.parent, r.name, r.ext, true) in ViewOf(v, g)
    || (r.ext == NO_EXT && Upwards(v, g, r.parent, r.name))
  }

  lemma MatchedIsPresent(v: Volume, g: Shape, r: Request)
    requires At(v, g, r.parent) && DeleteSlot(v, r) < TABLE_SLOTS
    ensures Present(v, g, r)
  {
    SlotMeans(v, g, r.parent, DeleteSlot(v, r));
  }

  lemma SlottedIsMatched(v: Volume, r: Request, i: nat, dir: bool)
    requires r.parent < CLUSTER_MAP_SIZE && Slotted(v.Table(r.parent), i, r.name, r.ext, dir)
    ensures DeleteSlot(v, r) < TABLE_SLOTS
  {
    assert Matches(Named(r.name, r.ext), v.Table(r.parent)[i]);
  }

  lemma PresentIsMatched(v: Volume, g: Shape, r: Request)
    requires At(v, g, r.parent) && Present(v, g, r)
    ensures DeleteSlot(v, r) < TABLE_SLOTS
  {
    var t := v.Table(r.parent);
    if r.ext == NO_EXT && Upwards(v, g, r.parent, r.name) {
      assert DirOk(MetaOf(v), g, r.parent);
      SlottedIsMatched(v, r, if r.name == t[0].name then 0 else 1, true);
    } else {
      var dir := !FileBound(v, g, r.parent, r.name, r.ext);
      BoundIff(v, g, Key(r.parent, r.name, r.ext, dir));
      var i: nat :| 2 <= i && Slotted(t, i, r.name, r.ext, dir);
      SlottedIsMatched(v, r, i, dir);
    }
  }

  lemma NothingMatched(v: Volume, g: Shape, r: Request)
    requires At(v, g, r.parent)
    ensures DeleteSlot(v, r) == TABLE_SLOTS <==> !Present(v, g, r)
  {
    if DeleteSlot(v, r) < TABLE_SLOTS {
      MatchedIsPresent(v, g, r);
    }
    if Present(v, g, r) {
      PresentIsMatched(v, g, r);
    }
  }

  // The directory a matched directory entry names.
  lemma MatchedDirectory(v: Volume, g: Shape, r: Request, i: nat)
    requires At(v, g, r.parent) && i < TABLE_SLOTS && v.Table(r.parent)[i].Used() && v.Table(r.parent)[i].IsDir()
    ensures At(v, g, v.Table(r.parent)[i].cluster)
    ensures i == 0 ==> v.Table(r.parent)[i].cluster == r.parent
    ensures i == 1 ==> v.Table(r.parent)[i].cluster == g.Parent(r.parent)
  {
    var m := MetaOf(v);
    assert DirOk(m, g, r.parent) && DirOk(m, g, g.Parent(r.parent));
    if 2 <= i {
      assert Child(m, g, r.parent, i) && ChildOk(m, g, r.parent, i);
      DirectoryIsAt(v, g, v.Table(r.parent)[i].cluster);
    }
  }

  lemma OwnNameMatchesFirst(v: Volume, g: Shape, r: Request)
    requires At(v, g, r.parent)
    ensures DeleteSlot(v, r) == 0 <==> r.ext == NO_EXT && r.name == NameOf(v, r.parent)
  {
    assert DirOk(MetaOf(v), g, r.parent);
    assert Matches(Named(r.name, r.ext), v.Table(r.parent)[0]) <==> r.ext == NO_EXT && r.name == NameOf(v, r.parent);
  }

  // The first match is a directory, not the one deleted from, with a binding the emptiness scan sees.
  ghost predicate BusyMatch(v: Volume, g: Shape, r: Request, i: nat) {
    && r.parent < CLUSTER_MAP_SIZE && 1 <= i && MatchedAt(v, r, i)
    && v.Table(r.parent)[i].attribute == ATTR_SUBDIRECTORY && SeenBusy(v, g, v.Table(r.parent)[i].cluster)
  }

  lemma BusyMatchIff(v: Volume, g: Shape, r: Request)
    requires At(v, g, r.parent) && v.fat[r.parent] == END_OF_FILE && DeleteDefined(v, r)
    ensures (exists i: nat :: BusyMatch(v, g, r, i)) <==>
              var s := DeleteSlot(v, r);
              1 <= s < TABLE_SLOTS && v.Table(r.parent)[s].IsDir() && Busy(v.Table(v.Table(r.parent)[s].cluster))
  {
    var t, s := v.Table(r.parent), DeleteSlot(v, r);
    MatchedIs(v, r, s);
    if s < TABLE_SLOTS && t[s].IsDir() {
      MatchedDirectory(v, g, r, s);
      BusyIff(v, g, t[s].cluster);
      assert 1 <= s && Busy(v.Table(t[s].cluster)) ==> BusyMatch(v, g, r, s);
    }
    if i: nat :| BusyMatch(v, g, r, i) {
      MatchedIs(v, r, i);
    }
  }

  // delete in a directory: 1 exactly when nothing there has the name and extension; -1 exactly when the
  // directory itself has; 2 exactly when the first match is another directory with a binding past slot 2;
  // 0 otherwise. Aimed at a cluster the map does not mark, -1.
  lemma DeleteAnswers(v: Volume, g: Shape, r: Request)
    requires WellFormed(v, g) && DeleteDefined(v, r)
    ensures v.fat[r.parent] != END_OF_FILE ==> DeleteCode(v, r) == -1
    ensures r.parent in g.dirs ==>
              && At(v, g, r.parent)
              && (DeleteCode(v, r) == 1 <==> !Present(v, g, r))
              && (DeleteCode(v, r) == -1 <==> r.ext == NO_EXT && r.name == NameOf(v, r.parent))
              && (DeleteCode(v, r) == 2 <==> exists i: nat :: BusyMatch(v, g, r, i))
              && DeleteCode(v, r) in {0, 1, 2, -1}
  {
    if r.parent in g.dirs {
      DirectoryIsAt(v, g, r.parent);
      OwnNameIsDirectory(v, g, r);
      NothingMatched(v, g, r);
      OwnNameMatchesFirst(v, g, r);
      BusyMatchIff(v, g, r);
    }
  }

  lemma OwnNameIsDirectory(v: Volume, g: Shape, r: Request)
    requires At(v, g, r.parent)
    ensures v.Table(r.parent)[0].IsDir()
  {
    assert DirOk(MetaOf(v), g, r.parent);
  }

  // So a file whose name nothing else there shares is deleted.
  lemma LoneFileDeleted(v: Volume, g: Shape, r: Request)
    requires WellFormed(v, g) && r.parent in g.dirs && DeleteDefined(v, r) && At(v, g, r.parent)
    requires FileBound(v, g, r.parent, r.name, r.ext) && Key(r.parent, r.name, r.ext, true) !in ViewOf(v, g)
    requires !(r.ext == NO_EXT && Upwards(v, g, r.parent, r.name))
    ensures DeleteCode(v, r) == 0
  {
    DirectoryIsAt(v, g, r.parent);
    NothingMatched(v, g, r);
    SlotMeans(v, g, r.parent, DeleteSlot(v, r));
  }

  // And a directory without bindings of its own, whose name nothing else there shares. One with bindings
  // is refused exactly when one of them is past slot 2.
  lemma LoneDirectoryDeleted(v: Volume, g: Shape, r: Request)
    requires WellFormed(v, g) && r.parent in g.dirs && DeleteDefined(v, r) && At(v, g, r.parent) && r.ext == NO_EXT
    requires DirBound(v, g, r.parent, r.name) && !FileBound(v, g, r.parent, r.name, NO_EXT) && !Upwards(v, g, r.parent, r.name)
    ensures ViewOf(v, g)[Key(r.parent, r.name, NO_EXT, true)].SubDir?
    ensures var c := ViewOf(v, g)[Key(r.parent, r.name, NO_EXT, true)].cluster;
            && c in g.dirs
            && DeleteCode(v, r) == if SeenBusy(v, g, c) then 2 else 0
    ensures var c := ViewOf(v, g)[Key(r.parent, r.name, NO_EXT, true)].cluster;
            (forall k: Key :: k in ViewOf(v, g) ==> k.dir != c) ==> DeleteCode(v, r) == 0
  {
    var k, s := Key(r.parent, r.name, NO_EXT, true), DeleteSlot(v, r);
    DirectoryIsAt(v, g, r.parent);
    NothingMatched(v, g, r);
    SlotMeans(v, g, r.parent, s);
    OwnNameMatchesFirst(v, g, r);
    ChildSeen(v, g, r.parent, s);
    MatchedDirectory(v, g, r, s);
    BusyIff(v, g, v.Table(r.parent)[s].cluster);
  }

  // ---- read ----

  lemma NamedBelowIff(v: Volume, g: Shape, d: nat, name: Name)
    requires At(v, g, d)
    ensures NamedBelow(v.Table(d), name, true, TABLE_SLOTS) <==> DirBound(v, g, d, name) || Upwards(v, g, d, name)
    ensures NamedBelow(v.Table(d), name, false, TABLE_SLOTS) <==> exists ext: Ext :: FileBound(v, g, d, name, ext)
  {
    var t := v.Table(d);
    NamedDirectory(v, g, d, name);
    if i :| 0 <= i < TABLE_SLOTS && t[i].Used() && t[i].name == name && t[i].IsDir() == false {
      SlotMeans(v, g, d, i);
      assert FileBound(v, g, d, name, t[i].ext);
    }
    if ext: Ext :| FileBound(v, g, d, name, ext) {
      NamedFile(v, g, d, name, ext);
    }
  }

  lemma FileFoundIff(v: Volume, g: Shape, r: Request)
    requires At(v, g, r.parent)
    ensures First(v.Table(r.parent), FileNamed(r.name, r.ext), 0) < TABLE_SLOTS
            <==> FileBound(v, g, r.parent, r.name, r.ext)
  {
    var t, i := v.Table(r.parent), First(v.Table(r.parent), FileNamed(r.name, r.ext), 0);
    NamedFile(v, g, r.parent, r.name, r.ext);
    if j :| 0 <= j < TABLE_SLOTS && t[j].Used() && !t[j].IsDir() && t[j].name == r.name && t[j].ext == r.ext {
      assert Matches(FileNamed(r.name, r.ext), t[j]);
    }
  }

  // read in a directory, of a file that is not there: 1 when a directory has the name, 3 when nothing
  // has, -1 when only files with other extensions have. Whether a bound file is read or too long for the
  // buffer is what ReadRefines says.
  lemma ReadAnswers(v: Volume, g: Shape, r: Request)
    requires WellFormed(v, g) && r.parent < CLUSTER_MAP_SIZE
    ensures v.fat[r.parent] != END_OF_FILE ==> ReadCode(v, r) == -1
    ensures r.parent in g.dirs ==>
              && At(v, g, r.parent)
              && var dir := DirBound(v, g, r.parent, r.name) || Upwards(v, g, r.parent, r.name);
                 var file := exists ext: Ext :: FileBound(v, g, r.parent, r.name, ext);
              && (ReadCode(v, r) in {0, 2} <==> FileBound(v, g, r.parent, r.name, r.ext))
              && (ReadCode(v, r) == 1 <==> !FileBound(v, g, r.parent, r.name, r.ext) && dir)
              && (ReadCode(v, r) == 3 <==> !file && !dir)
              && (ReadCode(v, r) == -1 <==> !FileBound(v, g, r.parent, r.name, r.ext) && file && !dir)
  {
    if r.parent in g.dirs {
      DirectoryIsAt(v, g, r.parent);
      FileFoundIff(v, g, r);
      NamedBelowIff(v, g, r.parent, r.name);
    }
  }

  // ---- read_directory ----

  // read_directory in a directory, with a buffer of one cluster: 0 when a directory has the name, else 1
  // when a file has, else 2. With any other buffer size, or an unmarked cluster, -1.
  lemma ReadDirectoryAnswers(v: Volume, g: Shape, r: Request)
    requires WellFormed(v, g) && r.parent < CLUSTER_MAP_SIZE
    ensures r.bufferSize != 2048 || v.fat[r.parent] != END_OF_FILE <==> ReadDirectoryCode(v, r) == -1
    ensures r.parent in g.dirs && r.bufferSize == 2048 ==>
              && At(v, g, r.parent)
              && var dir := DirBound(v, g, r.parent, r.name) || Upwards(v, g, r.parent, r.name);
                 var file := exists ext: Ext :: FileBound(v, g, r.parent, r.name, ext);
              && (ReadDirectoryCode(v, r) == 0 <==> dir)
              && (ReadDirectoryCode(v, r) == 1 <==> file && !dir)
              && (ReadDirectoryCode(v, r) == 2 <==> !file && !dir)
  {
    if r.parent in g.dirs {
      DirectoryIsAt(v, g, r.parent);
      var t := v.Table(r.parent);
      NamedBelowIff(v, g, r.parent, r.name);
      var i := First(t, DirNamed(r.name), 0);
      if j :| 0 <= j < TABLE_SLOTS && t[j].Used() && t[j].name == r.name && t[j].IsDir() == true {
        assert Matches(DirNamed(r.name), t[j]);
      }
      assert i < TABLE_SLOTS ==> NamedBelow(t, r.name, true, TABLE_SLOTS);
    }
  }
}
