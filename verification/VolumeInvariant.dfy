/**
 The representation invariant of a formatted volume: which clusters are directories, who owns each
 cluster, and how the directories form a tree. Every operation keeps it.
 */
module VolumeInvariant {
  import opened Layout
  import opened DirectoryTable
  import opened ClusterMap
  import opened FileSystem

  type Tables = s: seq<Table> | |s| == CLUSTER_MAP_SIZE witness seq(CLUSTER_MAP_SIZE, _ => BlankTable())

  // What the invariant speaks of: the cluster map, and every cluster read as a directory table.
  datatype Meta = Meta(fat: FatMap, tables: Tables)

  function MetaOf(v: Volume): (m: Meta)
    ensures m.fat == v.fat
    ensures forall c: nat :: c < CLUSTER_MAP_SIZE ==> m.tables[c] == v.Table(c)
  {
    Meta(v.fat, seq(CLUSTER_MAP_SIZE, c requires 0 <= c < CLUSTER_MAP_SIZE => v.Table(c)))
  }

  // Slot(d, i): the cluster belongs to the entry in slot i of the directory at cluster d.
  datatype Owner = Nobody | Reserved | Slot(dir: nat, index: nat)

  // dirs are the clusters that hold directories; rank decreases from a directory to its parent.
  datatype Shape = Shape(dirs: set<nat>, owner: seq<Owner>, rank: map<nat, nat>)
  {
    function Parent(d: nat): nat
      requires d < |owner|
    {
      if owner[d].Slot? then owner[d].dir else d
    }
  }

  ghost predicate Child(v: Meta, g: Shape, d: nat, i: nat) {
    d in g.dirs && d < CLUSTER_MAP_SIZE && 2 <= i < TABLE_SLOTS && v.tables[d][i].Used()
  }

  // The quantified parts of the invariant are instantiated only where their named part is mentioned.

  // An allocatable cluster is free or owned, and its link goes upwards inside one owner's chain.
  ghost predicate CellOk(m: FatMap, g: Shape, c: nat)
    requires |g.owner| == CLUSTER_MAP_SIZE
  {
    3 <= c < CLUSTER_MAP_SIZE ==>
      && g.owner[c] != Reserved
      && (g.owner[c] == Nobody <==> m[c] == EMPTY_ENTRY)
      && (m[c] != EMPTY_ENTRY && m[c] != END_OF_FILE ==>
            c < m[c] < CLUSTER_MAP_SIZE && g.owner[m[c]] == g.owner[c])
  }

  ghost predicate MapOk(m: FatMap, g: Shape) {
    && |g.owner| == CLUSTER_MAP_SIZE
    && m[0] == CLUSTER_0_VALUE && m[1] == CLUSTER_1_VALUE && m[2] == END_OF_FILE
    && g.owner[0] == Reserved && g.owner[1] == Reserved && g.owner[2] == Reserved
    && (forall c: nat {:trigger CellOk(m, g, c)} :: CellOk(m, g, c))
  }

  // An owned cluster is on the chain of the entry that owns it.
  ghost predicate OwnerOk(v: Meta, g: Shape, c: nat)
    requires |g.owner| == CLUSTER_MAP_SIZE
  {
    3 <= c < CLUSTER_MAP_SIZE && g.owner[c].Slot? ==>
      && Child(v, g, g.owner[c].dir, g.owner[c].index)
      && c in Chain(v.fat, v.tables[g.owner[c].dir][g.owner[c].index].cluster)
  }

  ghost predicate OwnersOk(v: Meta, g: Shape)
    requires |g.owner| == CLUSTER_MAP_SIZE
  {
    forall c: nat {:trigger OwnerOk(v, g, c)} :: OwnerOk(v, g, c)
  }

  ghost predicate ChildOk(v: Meta, g: Shape, d: nat, i: nat)
    requires |g.owner| == CLUSTER_MAP_SIZE
  {
    Child(v, g, d, i) ==>
      var e := v.tables[d][i];
      && 3 <= e.cluster < CLUSTER_MAP_SIZE
      && g.owner[e.cluster] == Slot(d, i)
      && (e.IsDir() ==> e.cluster in g.dirs && e.ext == NO_EXT)
      && (!e.IsDir() ==> e.filesize == CLUSTER_SIZE * |Chain(v.fat, e.cluster)|)
  }

  ghost predicate ChildrenOk(v: Meta, g: Shape)
    requires |g.owner| == CLUSTER_MAP_SIZE
  {
    forall d: nat, i: nat {:trigger ChildOk(v, g, d, i)} :: ChildOk(v, g, d, i)
  }

  // An entry for directory c, as slots 0 and 1 hold one.
  predicate Names(e: DirEntry, name: Name, c: nat) {
    e.Used() && e.IsDir() && e.name == name && e.ext == NO_EXT && e.cluster == c
  }

  ghost predicate DirOk(v: Meta, g: Shape, d: nat)
    requires |g.owner| == CLUSTER_MAP_SIZE
  {
    d in g.dirs ==>
      && 2 <= d < CLUSTER_MAP_SIZE && v.fat[d] == END_OF_FILE && d in g.rank
      && var t, p := v.tables[d], g.Parent(d);
      && p in g.dirs && p < CLUSTER_MAP_SIZE && p in g.rank
      && Names(t[0], t[0].name, d)
      && Names(t[1], v.tables[p][0].name, p)
      && (d == ROOT_CLUSTER ==> t[0].name == ROOT_NAME)
      && (d != ROOT_CLUSTER ==>
            && g.owner[d].Slot? && g.rank[p] < g.rank[d]
            && 2 <= g.owner[d].index < TABLE_SLOTS
            && Names(v.tables[p][g.owner[d].index], t[0].name, d))
  }

  ghost predicate DirsOk(v: Meta, g: Shape)
    requires |g.owner| == CLUSTER_MAP_SIZE
  {
    ROOT_CLUSTER in g.dirs && forall d: nat {:trigger DirOk(v, g, d)} :: DirOk(v, g, d)
  }

  // Two entries that one request could not tell apart.
  predicate SameKey(a: DirEntry, b: DirEntry) {
    a.name == b.name && a.IsDir() == b.IsDir() && (a.IsDir() || a.ext == b.ext)
  }

  // Only the root's self and parent entries share a key.
  ghost predicate KeysDistinct(t: Table, isRoot: bool) {
    forall i: nat, j: nat {:trigger SameKey(t[i], t[j])} ::
      i < j < TABLE_SLOTS && t[i].Used() && t[j].Used() && SameKey(t[i], t[j]) ==> isRoot && i == 0 && j == 1
  }

  ghost predicate KeysOk(v: Meta, g: Shape) {
    forall d: nat {:trigger v.tables[d]} ::
      d in g.dirs && d < CLUSTER_MAP_SIZE ==> KeysDistinct(v.tables[d], d == ROOT_CLUSTER)
  }

  ghost predicate Inv(v: Meta, g: Shape) {
    MapOk(v.fat, g) && DirsOk(v, g) && OwnersOk(v, g) && ChildrenOk(v, g) && KeysOk(v, g)
  }

  // ---- Consequences ----

  // A chain never leaves its owner, so walks terminate and chains of different entries are disjoint.
  lemma {:induction false} OwnedChain(m: FatMap, g: Shape, c: nat)
    requires MapOk(m, g) && 3 <= c < CLUSTER_MAP_SIZE && g.owner[c].Slot?
    ensures Ends(m, c)
    ensures forall x :: x in Chain(m, c) ==> 3 <= x < CLUSTER_MAP_SIZE && g.owner[x] == g.owner[c]
    decreases CLUSTER_MAP_SIZE - c
  {
    assert CellOk(m, g, c);
    if m[c] != END_OF_FILE {
      OwnedChain(m, g, m[c]);
    }
  }

  // The chain of an entry is exactly the set of clusters it owns.
  lemma ChainIsOwnership(v: Meta, g: Shape, d: nat, i: nat)
    requires MapOk(v.fat, g) && OwnersOk(v, g) && ChildrenOk(v, g) && Child(v, g, d, i)
    ensures Ends(v.fat, v.tables[d][i].cluster)
    ensures forall c: nat :: c in Chain(v.fat, v.tables[d][i].cluster) <==>
                               3 <= c < CLUSTER_MAP_SIZE && g.owner[c] == Slot(d, i)
  {
    assert ChildOk(v, g, d, i);
    var first := v.tables[d][i].cluster;
    OwnedChain(v.fat, g, first);
    forall c: nat | 3 <= c < CLUSTER_MAP_SIZE && g.owner[c] == Slot(d, i) ensures c in Chain(v.fat, first) {
      assert OwnerOk(v, g, c);
    }
  }

  lemma ChainsDisjoint(v: Meta, g: Shape, d: nat, i: nat, d': nat, i': nat)
    requires Inv(v, g) && Child(v, g, d, i) && Child(v, g, d', i') && (d, i) != (d', i')
    ensures forall c :: c in Chain(v.fat, v.tables[d][i].cluster) ==> c !in Chain(v.fat, v.tables[d'][i'].cluster)
  {
    ChainIsOwnership(v, g, d, i);
    ChainIsOwnership(v, g, d', i');
  }

  // The allocatable clusters below n that belong to an entry.
  function OwnedBelow(g: Shape, n: nat): set<nat>
    requires n <= |g.owner|
  {
    set c: nat | 3 <= c < n && g.owner[c].Slot?
  }

  lemma {:induction false} FreePlusOwned(m: FatMap, g: Shape, n: nat)
    requires MapOk(m, g) && 3 <= n <= CLUSTER_MAP_SIZE
    ensures |FreeBelow(m, n)| + |OwnedBelow(g, n)| == n - 3
    decreases n
  {
    if n == 3 {
      assert OwnedBelow(g, 3) == {};
      assert FreeBelow(m, 3) == FreeBelow(m, 2) == FreeBelow(m, 1) == FreeBelow(m, 0) == [];
    } else {
      FreePlusOwned(m, g, n - 1);
      assert CellOk(m, g, n - 1);
      assert OwnedBelow(g, n) == OwnedBelow(g, n - 1) + if g.owner[n - 1].Slot? then {n - 1} else {};
    }
  }

  // Each of the 509 allocatable clusters is free or on exactly one entry's chain.
  lemma Conservation(v: Meta, g: Shape)
    requires Inv(v, g)
    ensures |FreeClusters(v.fat)| + |OwnedBelow(g, CLUSTER_MAP_SIZE)| == CLUSTER_MAP_SIZE - 3
    ensures forall c :: c in OwnedBelow(g, CLUSTER_MAP_SIZE) ==>
              && Child(v, g, g.owner[c].dir, g.owner[c].index)
              && c in Chain(v.fat, v.tables[g.owner[c].dir][g.owner[c].index].cluster)
  {
    FreePlusOwned(v.fat, g, CLUSTER_MAP_SIZE);
    forall c | c in OwnedBelow(g, CLUSTER_MAP_SIZE)
      ensures Child(v, g, g.owner[c].dir, g.owner[c].index)
      ensures c in Chain(v.fat, v.tables[g.owner[c].dir][g.owner[c].index].cluster)
    {
      assert OwnerOk(v, g, c);
    }
  }

  // ---- Adding an entry ----

  // v' is v with entry e put in the free slot i of directory p and the free clusters cs chained to
  // it. Cluster 1 is left open: it holds the map's copy.
  ghost predicate Added(v: Meta, v': Meta, p: nat, i: nat, e: DirEntry, cs: seq<nat>) {
    && p < CLUSTER_MAP_SIZE && 2 <= i < TABLE_SLOTS && !v.tables[p][i].Used()
    && |cs| > 0 && Ascending(cs) && e.Used() && e.cluster == cs[0]
    && (forall c :: c in cs ==> c < CLUSTER_MAP_SIZE && v.fat[c] == EMPTY_ENTRY)
    && v'.fat == LinkChain(v.fat, cs)
    && v'.tables[p] == v.tables[p][i := e]
    && (forall x: nat :: x < CLUSTER_MAP_SIZE && x != p && x != FAT_CLUSTER && x !in cs ==> v'.tables[x] == v.tables[x])
    && (forall j: nat :: j < TABLE_SLOTS && v.tables[p][j].Used() ==> !SameKey(v.tables[p][j], e))
    && (e.IsDir() ==>
          |cs| == 1 && e.ext == NO_EXT && v'.tables[cs[0]] == NewTable(e.name, cs[0], v.tables[p][0].name, p))
    && (!e.IsDir() ==> e.filesize == CLUSTER_SIZE * |cs|)
  }

  function Reown(owner: seq<Owner>, cs: seq<nat>, o: Owner): (owner': seq<Owner>)
    ensures |owner'| == |owner|
    ensures forall c: nat :: c < |owner| ==> owner'[c] == if c in cs then o else owner[c]
  {
    seq(|owner|, c requires 0 <= c < |owner| => if c in cs then o else owner[c])
  }

  function AddShape(g: Shape, p: nat, i: nat, e: DirEntry, cs: seq<nat>): Shape {
    var owner := Reown(g.owner, cs, Slot(p, i));
    if e.IsDir() && p in g.rank then Shape(g.dirs + {e.cluster}, owner, g.rank[e.cluster := g.rank[p] + 1])
    else Shape(g.dirs, owner, g.rank)
  }

  lemma LinkKeepsMapOk(m: FatMap, g: Shape, cs: seq<nat>, g': Shape, d: nat, i: nat)
    requires MapOk(m, g) && |cs| > 0 && Ascending(cs)
    requires forall c :: c in cs ==> c < CLUSTER_MAP_SIZE && m[c] == EMPTY_ENTRY
    requires g'.owner == Reown(g.owner, cs, Slot(d, i))
    ensures MapOk(LinkChain(m, cs), g')
    ensures forall c :: c in cs ==> 3 <= c
  {
    LinkChainMakesChain(m, cs);
    var m' := LinkChain(m, cs);
    forall c: nat ensures CellOk(m', g', c) {
      assert CellOk(m, g, c);
      if 3 <= c < CLUSTER_MAP_SIZE && c !in cs && m[c] != EMPTY_ENTRY && m[c] != END_OF_FILE {
        assert CellOk(m, g, m[c]);
      }
    }
  }

  lemma AddedFrame(v: Meta, v': Meta, g: Shape, p: nat, i: nat, e: DirEntry, cs: seq<nat>)
    requires MapOk(v.fat, g) && DirsOk(v, g) && p in g.dirs && Added(v, v', p, i, e, cs)
    ensures MapOk(v'.fat, AddShape(g, p, i, e, cs))
    ensures forall c :: c in cs ==> 3 <= c && c !in g.dirs
    ensures Chain(v'.fat, cs[0]) == cs
    ensures forall c: nat :: c < CLUSTER_MAP_SIZE && c !in cs ==> v'.fat[c] == v.fat[c]
    ensures |cs| == 1 ==> v'.fat[cs[0]] == END_OF_FILE
    ensures forall d :: d in g.dirs ==>
              d < CLUSTER_MAP_SIZE && v'.tables[d] == if d == p then v.tables[p][i := e] else v.tables[d]
  {
    LinkChainMakesChain(v.fat, cs);
    LinkKeepsMapOk(v.fat, g, cs, AddShape(g, p, i, e, cs), p, i);
    forall d | d in g.dirs
      ensures d !in cs
      ensures d < CLUSTER_MAP_SIZE && v'.tables[d] == if d == p then v.tables[p][i := e] else v.tables[d]
    {
      assert DirOk(v, g, d);
    }
  }

  // Linking free clusters does not touch the chains of the entries there are.
  lemma LinkKeepsChain(v: Meta, g: Shape, cs: seq<nat>, d: nat, j: nat)
    requires Inv(v, g) && Child(v, g, d, j) && |cs| > 0 && Ascending(cs)
    requires forall c :: c in cs ==> c < CLUSTER_MAP_SIZE && v.fat[c] == EMPTY_ENTRY
    ensures Chain(LinkChain(v.fat, cs), v.tables[d][j].cluster) == Chain(v.fat, v.tables[d][j].cluster)
    ensures forall x :: x in Chain(v.fat, v.tables[d][j].cluster) ==> x !in cs
  {
    var first := v.tables[d][j].cluster;
    ChainIsOwnership(v, g, d, j);
    forall x | x in Chain(v.fat, first) ensures x < CLUSTER_MAP_SIZE && x !in cs {
      assert CellOk(v.fat, g, x);
    }
    LinkChainMakesChain(v.fat, cs);
    ChainFrame(v.fat, LinkChain(v.fat, cs), first);
  }

  lemma AddedKeepsChain(v: Meta, v': Meta, g: Shape, p: nat, i: nat, e: DirEntry, cs: seq<nat>, d: nat, j: nat)
    requires Inv(v, g) && Added(v, v', p, i, e, cs) && Child(v, g, d, j)
    ensures Chain(v'.fat, v.tables[d][j].cluster) == Chain(v.fat, v.tables[d][j].cluster)
    ensures forall x :: x in Chain(v.fat, v.tables[d][j].cluster) ==> x !in cs
  {
    LinkKeepsChain(v, g, cs, d, j);
  }

  lemma AddedDirsOk(v: Meta, v': Meta, g: Shape, p: nat, i: nat, e: DirEntry, cs: seq<nat>)
    requires MapOk(v.fat, g) && DirsOk(v, g) && p in g.dirs && Added(v, v', p, i, e, cs)
    ensures DirsOk(v', AddShape(g, p, i, e, cs))
  {
    var g' := AddShape(g, p, i, e, cs);
    AddedFrame(v, v', g, p, i, e, cs);
    forall d: nat ensures DirOk(v', g', d) {
      assert DirOk(v, g, p);
      assert DirOk(v, g, d);
    }
  }

  lemma AddedOwnersOk(v: Meta, v': Meta, g: Shape, p: nat, i: nat, e: DirEntry, cs: seq<nat>)
    requires Inv(v, g) && p in g.dirs && Added(v, v', p, i, e, cs)
    ensures OwnersOk(v', AddShape(g, p, i, e, cs))
  {
    var g' := AddShape(g, p, i, e, cs);
    AddedFrame(v, v', g, p, i, e, cs);
    forall c: nat ensures OwnerOk(v', g', c) {
      if 3 <= c < CLUSTER_MAP_SIZE && g'.owner[c].Slot? && c !in cs {
        assert OwnerOk(v, g, c);
        AddedKeepsChain(v, v', g, p, i, e, cs, g.owner[c].dir, g.owner[c].index);
      }
    }
  }

  lemma AddedChildrenOk(v: Meta, v': Meta, g: Shape, p: nat, i: nat, e: DirEntry, cs: seq<nat>)
    requires Inv(v, g) && p in g.dirs && Added(v, v', p, i, e, cs)
    ensures ChildrenOk(v', AddShape(g, p, i, e, cs))
  {
    var g' := AddShape(g, p, i, e, cs);
    AddedFrame(v, v', g, p, i, e, cs);
    assert DirOk(v, g, p);
    forall d: nat, j: nat ensures ChildOk(v', g', d, j) {
      if Child(v', g', d, j) && d in g.dirs && (d, j) != (p, i) {
        assert ChildOk(v, g, d, j);
        AddedKeepsChain(v, v', g, p, i, e, cs, d, j);
        assert v.tables[d][j].cluster in Chain(v.fat, v.tables[d][j].cluster);
      }
    }
  }

  lemma AddedKeysOk(v: Meta, v': Meta, g: Shape, p: nat, i: nat, e: DirEntry, cs: seq<nat>)
    requires MapOk(v.fat, g) && DirsOk(v, g) && KeysOk(v, g) && p in g.dirs && Added(v, v', p, i, e, cs)
    ensures KeysOk(v', AddShape(g, p, i, e, cs))
  {
    var g' := AddShape(g, p, i, e, cs);
    AddedFrame(v, v', g, p, i, e, cs);
    assert DirOk(v, g, p);
    forall d: nat | d in g'.dirs && d < CLUSTER_MAP_SIZE ensures KeysDistinct(v'.tables[d], d == ROOT_CLUSTER) {
      if d in g.dirs {
        assert KeysDistinct(v.tables[d], d == ROOT_CLUSTER);
      } else {
        assert !SameKey(v.tables[p][0], e);
      }
    }
  }

  lemma AddedKeepsInv(v: Meta, v': Meta, g: Shape, p: nat, i: nat, e: DirEntry, cs: seq<nat>)
    requires Inv(v, g) && p in g.dirs && Added(v, v', p, i, e, cs)
    ensures Inv(v', AddShape(g, p, i, e, cs))
  {
    AddedFrame(v, v', g, p, i, e, cs);
    AddedDirsOk(v, v', g, p, i, e, cs);
    AddedOwnersOk(v, v', g, p, i, e, cs);
    AddedChildrenOk(v, v', g, p, i, e, cs);
    AddedKeysOk(v, v', g, p, i, e, cs);
  }

  // The children afterwards are the children before and the new one.
  lemma AddedChildren(v: Meta, v': Meta, g: Shape, p: nat, i: nat, e: DirEntry, cs: seq<nat>, d: nat, j: nat)
    requires MapOk(v.fat, g) && DirsOk(v, g) && p in g.dirs && Added(v, v', p, i, e, cs) && (d, j) != (p, i)
    ensures Child(v', AddShape(g, p, i, e, cs), d, j) <==> Child(v, g, d, j)
    ensures Child(v, g, d, j) ==> v'.tables[d][j] == v.tables[d][j]
  {
    AddedFrame(v, v', g, p, i, e, cs);
    assert DirOk(v, g, p);
  }

  // ---- Removing an entry ----

  // v' is v with the used child slot i of directory p cleared and its chain cs released. A directory
  // must have no children.
  ghost predicate Removed(v: Meta, v': Meta, p: nat, i: nat, cs: seq<nat>) {
    && p < CLUSTER_MAP_SIZE && 2 <= i < TABLE_SLOTS
    && var e := v.tables[p][i];
    && e.Used() && cs == Chain(v.fat, e.cluster)
    && (forall k :: 0 <= k < |cs| ==> cs[k] < CLUSTER_MAP_SIZE)
    && v'.fat == Release(v.fat, cs)
    && v'.tables[p] == v.tables[p][i := e.Cleared()]
    && (forall x: nat :: x < CLUSTER_MAP_SIZE && x != p && x != FAT_CLUSTER && x !in cs ==> v'.tables[x] == v.tables[x])
    && (e.IsDir() && e.cluster < CLUSTER_MAP_SIZE ==>
          forall j: nat :: 2 <= j < TABLE_SLOTS ==> !v.tables[e.cluster][j].Used())
  }

  function RemoveShape(g: Shape, e: DirEntry, cs: seq<nat>): Shape {
    Shape(if e.IsDir() then g.dirs - {e.cluster} else g.dirs, Reown(g.owner, cs, Nobody), g.rank)
  }

  lemma RemovedFrame(v: Meta, v': Meta, g: Shape, p: nat, i: nat, cs: seq<nat>)
    requires Inv(v, g) && p in g.dirs && Removed(v, v', p, i, cs)
    ensures forall c: nat :: c in cs <==> 3 <= c < CLUSTER_MAP_SIZE && g.owner[c] == Slot(p, i)
    ensures forall c: nat :: c < CLUSTER_MAP_SIZE ==> v'.fat[c] == if c in cs then EMPTY_ENTRY else v.fat[c]
    ensures MapOk(v'.fat, RemoveShape(g, v.tables[p][i], cs))
    ensures forall d :: d in g.dirs && d in cs ==> v.tables[p][i].IsDir() && d == v.tables[p][i].cluster
    ensures v.tables[p][i].IsDir() ==> v.tables[p][i].cluster in cs
    ensures forall d :: d in g.dirs && d !in cs ==>
              d < CLUSTER_MAP_SIZE
              && v'.tables[d] == if d == p then v.tables[p][i := v.tables[p][i].Cleared()] else v.tables[d]
  {
    var e, g' := v.tables[p][i], RemoveShape(g, v.tables[p][i], cs);
    ChainIsOwnership(v, g, p, i);
    ReleasePointwise(v.fat, cs);
    forall c: nat ensures CellOk(v'.fat, g', c) {
      assert CellOk(v.fat, g, c);
    }
    forall d | d in g.dirs && d in cs ensures e.IsDir() && d == e.cluster {
      assert DirOk(v, g, d);
    }
    forall d | d in g.dirs && d !in cs
      ensures d < CLUSTER_MAP_SIZE && v'.tables[d] == if d == p then v.tables[p][i := e.Cleared()] else v.tables[d]
    {
      assert DirOk(v, g, d);
    }
  }

  lemma RemovedKeepsChain(v: Meta, v': Meta, g: Shape, p: nat, i: nat, cs: seq<nat>, d: nat, j: nat)
    requires Inv(v, g) && p in g.dirs && Removed(v, v', p, i, cs) && Child(v, g, d, j) && (d, j) != (p, i)
    ensures Chain(v'.fat, v.tables[d][j].cluster) == Chain(v.fat, v.tables[d][j].cluster)
    ensures forall x :: x in Chain(v.fat, v.tables[d][j].cluster) ==> x !in cs
  {
    RemovedFrame(v, v', g, p, i, cs);
    ChainIsOwnership(v, g, d, j);
    ChainFrame(v.fat, v'.fat, v.tables[d][j].cluster);
  }

  // No directory's parent is the one removed, which had no children.
  lemma RemovedDirsOk(v: Meta, v': Meta, g: Shape, p: nat, i: nat, cs: seq<nat>)
    requires Inv(v, g) && p in g.dirs && Removed(v, v', p, i, cs)
    ensures DirsOk(v', RemoveShape(g, v.tables[p][i], cs))
  {
    var e, g' := v.tables[p][i], RemoveShape(g, v.tables[p][i], cs);
    RemovedFrame(v, v', g, p, i, cs);
    forall d: nat ensures DirOk(v', g', d) {
      if d in g'.dirs {
        assert DirOk(v, g, d);
        var q := g.Parent(d);
        assert DirOk(v, g, q);
        assert d !in cs;
        if d != ROOT_CLUSTER {
          assert v.tables[q][g.owner[d].index].Used();
          assert CellOk(v.fat, g, d);
          assert q !in cs;
        }
      }
    }
  }

  lemma RemovedOwnersOk(v: Meta, v': Meta, g: Shape, p: nat, i: nat, cs: seq<nat>)
    requires Inv(v, g) && p in g.dirs && Removed(v, v', p, i, cs)
    ensures OwnersOk(v', RemoveShape(g, v.tables[p][i], cs))
  {
    var g' := RemoveShape(g, v.tables[p][i], cs);
    RemovedFrame(v, v', g, p, i, cs);
    forall c: nat ensures OwnerOk(v', g', c) {
      if 3 <= c < CLUSTER_MAP_SIZE && g'.owner[c].Slot? {
        assert OwnerOk(v, g, c);
        var d, j := g.owner[c].dir, g.owner[c].index;
        RemovedKeepsChain(v, v', g, p, i, cs, d, j);
        assert d !in cs;
      }
    }
  }

  lemma RemovedChildrenOk(v: Meta, v': Meta, g: Shape, p: nat, i: nat, cs: seq<nat>)
    requires Inv(v, g) && p in g.dirs && Removed(v, v', p, i, cs)
    ensures ChildrenOk(v', RemoveShape(g, v.tables[p][i], cs))
  {
    var g' := RemoveShape(g, v.tables[p][i], cs);
    RemovedFrame(v, v', g, p, i, cs);
    forall d: nat, j: nat ensures ChildOk(v', g', d, j) {
      if Child(v', g', d, j) {
        assert ChildOk(v, g, d, j);
        RemovedKeepsChain(v, v', g, p, i, cs, d, j);
        assert v.tables[d][j].cluster in Chain(v.fat, v.tables[d][j].cluster);
      }
    }
  }

  lemma RemovedKeepsInv(v: Meta, v': Meta, g: Shape, p: nat, i: nat, cs: seq<nat>)
    requires Inv(v, g) && p in g.dirs && Removed(v, v', p, i, cs)
    ensures Inv(v', RemoveShape(g, v.tables[p][i], cs))
  {
    var g' := RemoveShape(g, v.tables[p][i], cs);
    RemovedFrame(v, v', g, p, i, cs);
    RemovedDirsOk(v, v', g, p, i, cs);
    RemovedOwnersOk(v, v', g, p, i, cs);
    RemovedChildrenOk(v, v', g, p, i, cs);
    forall d: nat | d in g'.dirs && d < CLUSTER_MAP_SIZE ensures KeysDistinct(v'.tables[d], d == ROOT_CLUSTER) {
      assert KeysDistinct(v.tables[d], d == ROOT_CLUSTER);
    }
  }

  // The children afterwards are the children before but the one removed.
  lemma RemovedChildren(v: Meta, v': Meta, g: Shape, p: nat, i: nat, cs: seq<nat>, d: nat, j: nat)
    requires Inv(v, g) && p in g.dirs && Removed(v, v', p, i, cs)
    ensures Child(v', RemoveShape(g, v.tables[p][i], cs), d, j) <==> Child(v, g, d, j) && (d, j) != (p, i)
    ensures Child(v, g, d, j) && (d, j) != (p, i) ==> v'.tables[d][j] == v.tables[d][j]
  {
    RemovedFrame(v, v', g, p, i, cs);
  }
}
