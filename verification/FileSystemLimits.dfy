/**
 Where the driver's own guards are weaker than the invariant needs, and exactly when an operation
 that they let through keeps the volume well formed.
 */
module FileSystemLimits {
  import opened Layout
  import opened DirectoryTable
  import opened ClusterMap
  import opened FileSystem
  import opened VolumeInvariant
  import opened VolumeOperations

  // ---- The "is a directory" test ----

  ghost predicate FileTail(v: Volume, g: Shape, c: nat)
    requires c < CLUSTER_MAP_SIZE
  {
    exists d: nat, i: nat :: LastOf(v, g, d, i, c)
  }

  ghost predicate LastOf(v: Volume, g: Shape, d: nat, i: nat, c: nat) {
    && Child(MetaOf(v), g, d, i) && !v.Table(d)[i].IsDir()
    && var cs := Chain(v.fat, v.Table(d)[i].cluster);
    cs[|cs| - 1] == c
  }

  lemma TailIsMarked(v: Volume, g: Shape, d: nat, i: nat, c: nat)
    requires WellFormed(v, g) && LastOf(v, g, d, i, c)
    ensures c < CLUSTER_MAP_SIZE && v.fat[c] == END_OF_FILE
  {
    ChainIsOwnership(MetaOf(v), g, d, i);
    ChainLinks(v.fat, v.Table(d)[i].cluster);
  }

  lemma MarkedIsTail(v: Volume, g: Shape, c: nat)
    requires WellFormed(v, g) && 3 <= c < CLUSTER_MAP_SIZE && v.fat[c] == END_OF_FILE && c !in g.dirs
    ensures FileTail(v, g, c)
  {
    var m := MetaOf(v);
    assert CellOk(v.fat, g, c) && OwnerOk(m, g, c);
    var d, i := g.owner[c].dir, g.owner[c].index;
    assert ChildOk(m, g, d, i);
    var first := v.Table(d)[i].cluster;
    ChainIsOwnership(m, g, d, i);
    MarkedIsLast(v.fat, first, c);
    assert DirOk(m, g, first);
    assert LastOf(v, g, d, i, c);
  }

  // The test map[c] == END_OF_FILE accepts the directories, cluster 1, and the last cluster of
  // every file.
  lemma GuardAccepts(v: Volume, g: Shape, c: nat)
    requires WellFormed(v, g) && c < CLUSTER_MAP_SIZE
    ensures v.fat[c] == END_OF_FILE <==> c == FAT_CLUSTER || c in g.dirs || FileTail(v, g, c)
  {
    assert DirOk(MetaOf(v), g, c);
    if v.fat[c] == END_OF_FILE && 3 <= c && c !in g.dirs {
      MarkedIsTail(v, g, c);
    }
    if FileTail(v, g, c) {
      var d: nat, i: nat :| LastOf(v, g, d, i, c);
      TailIsMarked(v, g, d, i, c);
    }
  }

  lemma {:induction false} MarkedIsLast(m: FatMap, first: nat, c: nat)
    requires Ends(m, first) && c in Chain(m, first) && c < CLUSTER_MAP_SIZE && m[c] == END_OF_FILE
    ensures Chain(m, first)[|Chain(m, first)| - 1] == c
    decreases CLUSTER_MAP_SIZE - first
  {
    if m[first] != END_OF_FILE {
      MarkedIsLast(m, m[first], c);
    }
  }

  // ---- Directories of another shape of the same tables ----

  // If the tables of g's directories did not change, any other shape's directories are among g's.
  lemma {:induction false} DirsAmong(m: Meta, g: Shape, m': Meta, g': Shape, d: nat)
    requires Inv(m, g) && MapOk(m'.fat, g') && DirsOk(m', g') && d in g'.dirs && d in g'.rank
    requires forall x :: x in g.dirs && x < CLUSTER_MAP_SIZE ==> m'.tables[x] == m.tables[x]
    ensures d in g.dirs && d < CLUSTER_MAP_SIZE
    decreases g'.rank[d]
  {
    assert DirOk(m', g', d);
    if d != ROOT_CLUSTER {
      var q, j := g'.Parent(d), g'.owner[d].index;
      DirsAmong(m, g, m', g', q);
      assert ChildOk(m, g, q, j);
      assert DirOk(m, g, d);
    }
  }

  // A directory whose ancestors' tables did not change is a directory of every other shape.
  lemma {:induction false} DirForced(m: Meta, g: Shape, m': Meta, g': Shape, d: nat)
    requires Inv(m, g) && Inv(m', g') && d in g.dirs && d in g.rank
    requires forall x :: x in g.dirs && x < CLUSTER_MAP_SIZE && x in g.rank && g.rank[x] < g.rank[d] ==>
               m'.tables[x] == m.tables[x]
    ensures d in g'.dirs
    decreases g.rank[d]
  {
    assert DirOk(m, g, d);
    if d != ROOT_CLUSTER {
      var q, j := g.Parent(d), g.owner[d].index;
      DirForced(m, g, m', g', q);
      assert m'.tables[q] == m.tables[q];
      assert ChildOk(m', g', q, j);
    }
  }

  // ---- write ----

  lemma WriteFrame(v: Volume, r: Request, data: seq<byte>)
    requires r.parent < CLUSTER_MAP_SIZE && Readable(r, data) && WriteCode(v, r) == 0
    ensures Write(v, r, data).fat == LinkChain(v.fat, Allocated(v, r))
    ensures forall x: nat :: x < CLUSTER_MAP_SIZE && x != r.parent && x != FAT_CLUSTER && x !in Allocated(v, r) ==>
                               Write(v, r, data).disk[x] == v.disk[x]
  {
    var cs := Allocated(v, r);
    AllocatedFree(v, r);
    if r.bufferSize == 0 {
      var linked := v.(fat := LinkChain(v.fat, cs));
      assert cs == [cs[0]] && linked.fat[cs[0] := END_OF_FILE] == linked.fat;
      assert r.parent !in cs;
    } else {
      StoreElsewhere(v.disk, cs, data);
    }
  }

  lemma LinkChainMarks(m: FatMap, cs: seq<nat>)
    requires |cs| > 0 && Ascending(cs)
    ensures LinkChain(m, cs)[cs[0]] != EMPTY_ENTRY
  {
    LinkChainMakesChain(m, cs);
    assert cs[0] in cs;
  }

  // The clusters just allocated belong to nobody when no directory table changed.
  lemma OrphanedAllocation(m: Meta, g: Shape, m': Meta, g': Shape, cs: seq<nat>)
    requires Inv(m, g) && |cs| > 0 && Ascending(cs) && m'.fat == LinkChain(m.fat, cs)
    requires forall c :: c in cs ==> c < CLUSTER_MAP_SIZE && m.fat[c] == EMPTY_ENTRY
    requires forall x :: x in g.dirs && x < CLUSTER_MAP_SIZE ==> m'.tables[x] == m.tables[x]
    ensures !Inv(m', g')
  {
    if Inv(m', g') {
      var c := cs[0];
      assert c in cs;
      LinkKeepsMapOk(m.fat, g, cs, Shape(g.dirs, Reown(g.owner, cs, Slot(0, 0)), g.rank), 0, 0);
      LinkChainMarks(m.fat, cs);
      assert CellOk(m'.fat, g', c) && OwnerOk(m', g', c);
      var d, j := g'.owner[c].dir, g'.owner[c].index;
      assert DirOk(m', g', d);
      DirsAmong(m, g, m', g', d);
      LinkKeepsChain(m, g, cs, d, j);
      assert false;
    }
  }

  // A successful write keeps the volume well formed if and only if its parent is a directory; the
  // other parents that the guard accepts are cluster 1 and the last clusters of files.
  lemma WriteKeepsWellFormedIff(v: Volume, g: Shape, r: Request, data: seq<byte>)
    requires WellFormed(v, g) && r.parent < CLUSTER_MAP_SIZE && Readable(r, data) && WriteCode(v, r) == 0
    ensures (exists g' :: WellFormed(Write(v, r, data), g')) <==> r.parent in g.dirs
  {
    if r.parent in g.dirs {
      WriteKeepsWellFormed(v, g, r, data);
    } else {
      var v', cs := Write(v, r, data), Allocated(v, r);
      WriteFrame(v, r, data);
      AllocatedFree(v, r);
      forall x | x in g.dirs && x < CLUSTER_MAP_SIZE ensures MetaOf(v').tables[x] == MetaOf(v).tables[x] {
        assert DirOk(MetaOf(v), g, x);
      }
      forall g' ensures !WellFormed(v', g') {
        OrphanedAllocation(MetaOf(v), g, MetaOf(v'), g', cs);
      }
    }
  }

  // ---- delete, in a directory ----

  lemma DeleteFrame(v: Volume, r: Request)
    requires DeleteDefined(v, r) && DeleteCode(v, r) == 0
    ensures var v', cs := Delete(v, r), Freed(v, v.Table(r.parent)[DeleteSlot(v, r)]);
            && v'.fat == Release(v.fat, cs)
            && forall z: nat :: z < CLUSTER_MAP_SIZE && z != r.parent && z != FAT_CLUSTER && z !in cs ==>
                 v'.disk[z] == v.disk[z]
  {
    var t, i := v.Table(r.parent), DeleteSlot(v, r);
    WipePointwise(v.PutTable(r.parent, t[i := t[i].Cleared()]).disk, Freed(v, t[i]));
  }

  lemma ChildInUse(m: Meta, g: Shape, d: nat, i: nat)
    requires Inv(m, g) && Child(m, g, d, i)
    ensures m.tables[d][i].cluster < CLUSTER_MAP_SIZE && m.fat[m.tables[d][i].cluster] != EMPTY_ENTRY
  {
    assert ChildOk(m, g, d, i);
    assert CellOk(m.fat, g, m.tables[d][i].cluster);
  }

  // Deleting through slot 1 frees the parent's cluster, which its own parent still names.
  lemma ParentFreed(m: Meta, g: Shape, m': Meta, g': Shape, p: nat)
    requires Inv(m, g) && p in g.dirs && p != ROOT_CLUSTER && p < |g.owner| && g.Parent(p) < CLUSTER_MAP_SIZE
    requires m'.fat[g.Parent(p)] == EMPTY_ENTRY
    requires forall x :: x in g.dirs && x < CLUSTER_MAP_SIZE && x != p && x != g.Parent(p) ==> m'.tables[x] == m.tables[x]
    ensures !Inv(m', g')
  {
    if Inv(m', g') {
      var q := g.Parent(p);
      assert DirOk(m, g, p) && DirOk(m, g, q);
      if q != ROOT_CLUSTER {
        var pp, j := g.Parent(q), g.owner[q].index;
        assert DirOk(m, g, pp);
        DirForced(m, g, m', g', pp);
        ChildInUse(m', g', pp, j);
      }
      assert false;
    }
  }

  // After directory x's entry (p, i) is cleared, no shape of the tables reaches x.
  lemma {:induction false} DirsAmongOthers(m: Meta, g: Shape, m': Meta, g': Shape, p: nat, i: nat, d: nat)
    requires Inv(m, g) && MapOk(m'.fat, g') && DirsOk(m', g') && d in g'.dirs && d in g'.rank
    requires Child(m, g, p, i) && m.tables[p][i].IsDir()
    requires m'.tables[p] == m.tables[p][i := m.tables[p][i].Cleared()]
    requires forall x :: x in g.dirs && x < CLUSTER_MAP_SIZE && x != p && x != m.tables[p][i].cluster ==>
               m'.tables[x] == m.tables[x]
    ensures d in g.dirs && d < CLUSTER_MAP_SIZE && d != m.tables[p][i].cluster
    decreases g'.rank[d]
  {
    assert DirOk(m', g', d) && ChildOk(m, g, p, i);
    if d != ROOT_CLUSTER {
      var q, j := g'.Parent(d), g'.owner[d].index;
      DirsAmongOthers(m, g, m', g', p, i, q);
      assert ChildOk(m, g, q, j);
      assert DirOk(m, g, d);
    }
  }

  // The child left in slot 2 of a deleted directory keeps its clusters, but no directory names it.
  lemma OrphanedChild(m: Meta, g: Shape, m': Meta, g': Shape, p: nat, i: nat)
    requires Inv(m, g) && Child(m, g, p, i) && m.tables[p][i].IsDir() && m.tables[p][i].cluster < CLUSTER_MAP_SIZE
    requires m.tables[m.tables[p][i].cluster][2].Used()
    requires m'.tables[p] == m.tables[p][i := m.tables[p][i].Cleared()]
    requires forall x :: x in g.dirs && x < CLUSTER_MAP_SIZE && x != p && x != m.tables[p][i].cluster ==>
               m'.tables[x] == m.tables[x]
    requires forall c: nat :: c < CLUSTER_MAP_SIZE && c != m.tables[p][i].cluster ==> m'.fat[c] == m.fat[c]
    ensures !Inv(m', g')
  {
    if Inv(m', g') {
      var x := m.tables[p][i].cluster;
      assert ChildOk(m, g, p, i) && DirOk(m, g, x) && ChildOk(m, g, x, 2);
      var c := m.tables[x][2].cluster;
      assert CellOk(m.fat, g, c) && CellOk(m'.fat, g', c) && OwnerOk(m', g', c);
      var d, j := g'.owner[c].dir, g'.owner[c].index;
      assert DirOk(m', g', d);
      DirsAmongOthers(m, g, m', g', p, i, d);
      ChainIsOwnership(m, g, d, j);
      ChainFrame(m.fat, m'.fat, m.tables[d][j].cluster);
      assert false;
    }
  }

  lemma DirectoryDeleteKeepsIff(v: Volume, g: Shape, r: Request)
    requires WellFormed(v, g) && r.parent in g.dirs && DeleteDefined(v, r) && DeleteCode(v, r) == 0
    ensures (exists g' :: WellFormed(Delete(v, r), g')) <==> Removable(v, r)
  {
    var m, m', p, i := MetaOf(v), MetaOf(Delete(v, r)), r.parent, DeleteSlot(v, r);
    assert DirOk(m, g, p);
    if Removable(v, r) {
      DeleteKeepsWellFormed(v, g, r);
    } else if i < 2 {
      DeleteParentFrame(v, g, r);
      forall g' ensures !WellFormed(Delete(v, r), g') {
        ParentFreed(m, g, m', g', p);
      }
    } else {
      FreedFacts(v, g, r);
      DeleteOnDisk(v, r);
      assert ChildOk(m, g, p, i);
      ReleasePointwise(v.fat, Freed(v, v.Table(p)[i]));
      DeleteTables(v, g, r);
      forall g' ensures !WellFormed(Delete(v, r), g') {
        OrphanedChild(m, g, m', g', p, i);
      }
    }
  }

  lemma DeleteTables(v: Volume, g: Shape, r: Request)
    requires WellFormed(v, g) && r.parent in g.dirs && DeleteDefined(v, r) && DeleteCode(v, r) == 0
    requires 2 <= DeleteSlot(v, r) && v.Table(r.parent)[DeleteSlot(v, r)].IsDir()
    ensures forall x :: x in g.dirs && x < CLUSTER_MAP_SIZE && x != r.parent
                        && x != v.Table(r.parent)[DeleteSlot(v, r)].cluster ==>
                          MetaOf(Delete(v, r)).tables[x] == MetaOf(v).tables[x]
  {
    DeleteFrame(v, r);
    assert DirOk(MetaOf(v), g, FAT_CLUSTER);
  }

  lemma DeleteMatchedParent(v: Volume, g: Shape, r: Request)
    requires WellFormed(v, g) && r.parent in g.dirs && DeleteDefined(v, r) && DeleteCode(v, r) == 0
    requires DeleteSlot(v, r) < 2
    ensures r.parent != ROOT_CLUSTER && r.parent < |g.owner| && g.Parent(r.parent) < CLUSTER_MAP_SIZE
    ensures r.parent != g.Parent(r.parent) && r.parent != FAT_CLUSTER && g.Parent(r.parent) != FAT_CLUSTER
    ensures Freed(v, v.Table(r.parent)[DeleteSlot(v, r)]) == [g.Parent(r.parent)]
  {
    var p := r.parent;
    assert DirOk(MetaOf(v), g, p) && DirOk(MetaOf(v), g, g.Parent(p));
    assert DeleteSlot(v, r) == 1 && !Matches(Named(r.name, r.ext), v.Table(p)[0]);
  }

  lemma DeleteParentFrame(v: Volume, g: Shape, r: Request)
    requires WellFormed(v, g) && r.parent in g.dirs && DeleteDefined(v, r) && DeleteCode(v, r) == 0
    requires DeleteSlot(v, r) < 2
    ensures r.parent != ROOT_CLUSTER && r.parent < |g.owner| && g.Parent(r.parent) < CLUSTER_MAP_SIZE
    ensures Delete(v, r).fat[g.Parent(r.parent)] == EMPTY_ENTRY
    ensures forall x :: x in g.dirs && x < CLUSTER_MAP_SIZE && x != r.parent && x != g.Parent(r.parent) ==>
              MetaOf(Delete(v, r)).tables[x] == MetaOf(v).tables[x]
  {
    DeleteMatchedParent(v, g, r);
    DeleteFrame(v, r);
    ReleasePointwise(v.fat, [g.Parent(r.parent)]);
    assert DirOk(MetaOf(v), g, FAT_CLUSTER);
  }

  // ---- delete, through a cluster that holds no directory ----

  // Inside a chain, every cluster but the first is linked from another one of the chain.
  lemma {:induction false} Predecessor(m: FatMap, first: nat, x: nat) returns (y: nat)
    requires Ends(m, first) && x in Chain(m, first) && x != first
    ensures y in Chain(m, first) && y < x < CLUSTER_MAP_SIZE && m[y] == x
    decreases CLUSTER_MAP_SIZE - first
  {
    if m[first] == x {
      y := first;
    } else {
      y := Predecessor(m, m[first], x);
    }
  }

  lemma LinkedInUse(m: FatMap, g: Shape, y: nat)
    requires MapOk(m, g) && 3 <= y < CLUSTER_MAP_SIZE && m[y] != EMPTY_ENTRY && m[y] != END_OF_FILE
    ensures y < m[y] < CLUSTER_MAP_SIZE && m[m[y]] != EMPTY_ENTRY
  {
    assert CellOk(m, g, y) && CellOk(m, g, m[y]);
  }

  // Freeing clusters in use, from x upwards on x's chain, without touching any directory but those
  // freed, leaves either a link to a free cluster or an entry that names one.
  lemma ChainCut(m: Meta, g: Shape, m': Meta, g': Shape, cs: seq<nat>, x: nat)
    requires Inv(m, g) && x in cs && x < CLUSTER_MAP_SIZE && m.fat[x] != EMPTY_ENTRY
    requires forall c: nat :: c < CLUSTER_MAP_SIZE ==> m'.fat[c] == if c in cs then EMPTY_ENTRY else m.fat[c]
    requires forall c :: c in cs && c < CLUSTER_MAP_SIZE && 3 <= x ==> x <= c && g.owner[c] == g.owner[x]
    requires forall z :: z in g.dirs && z < CLUSTER_MAP_SIZE && z !in cs ==> m'.tables[z] == m.tables[z]
    ensures !Inv(m', g')
  {
    if Inv(m', g') && 3 <= x {
      assert CellOk(m.fat, g, x) && OwnerOk(m, g, x);
      var d, i := g.owner[x].dir, g.owner[x].index;
      assert ChildOk(m, g, d, i);
      var first := m.tables[d][i].cluster;
      ChainIsOwnership(m, g, d, i);
      if x == first {
        assert DirOk(m, g, d);
        forall z | z in g.dirs && z in cs ensures z in g.rank && g.rank[d] < g.rank[z] {
          assert DirOk(m, g, z);
        }
        DirForced(m, g, m', g', d);
        ChildInUse(m', g', d, i);
      } else {
        var y := Predecessor(m.fat, first, x);
        LinkedInUse(m'.fat, g', y);
      }
      assert false;
    }
  }

  // With the map and every directory as before, so is the invariant.
  lemma SameDirectoriesKeepInv(m: Meta, m': Meta, g: Shape)
    requires Inv(m, g) && m'.fat == m.fat
    requires forall z :: z in g.dirs && z < CLUSTER_MAP_SIZE ==> m'.tables[z] == m.tables[z]
    ensures Inv(m', g)
  {
    forall d: nat ensures DirOk(m', g, d) {
      assert DirOk(m, g, d);
    }
    forall c: nat ensures OwnerOk(m', g, c) {
      assert OwnerOk(m, g, c);
    }
    forall d: nat, i: nat ensures ChildOk(m', g, d, i) {
      assert ChildOk(m, g, d, i);
    }
    forall d: nat | d in g.dirs && d < CLUSTER_MAP_SIZE ensures KeysDistinct(m'.tables[d], d == ROOT_CLUSTER) {
      assert KeysDistinct(m.tables[d], d == ROOT_CLUSTER);
    }
  }

  // What such a delete frees and what it leaves as it was.
  lemma StrayDelete(v: Volume, g: Shape, r: Request)
    requires WellFormed(v, g) && DeleteDefined(v, r) && r.parent !in g.dirs && DeleteCode(v, r) == 0
    ensures var m, m', cs := MetaOf(v), MetaOf(Delete(v, r)), Freed(v, v.Table(r.parent)[DeleteSlot(v, r)]);
            && (forall c: nat :: c < CLUSTER_MAP_SIZE ==> m'.fat[c] == if c in cs then EMPTY_ENTRY else m.fat[c])
            && (forall z :: z in g.dirs && z < CLUSTER_MAP_SIZE && z !in cs ==> m'.tables[z] == m.tables[z])
  {
    var cs, v' := Freed(v, v.Table(r.parent)[DeleteSlot(v, r)]), Delete(v, r);
    DeleteFrame(v, r);
    ReleasePointwise(v.fat, cs);
    forall z | z in g.dirs && z < CLUSTER_MAP_SIZE && z !in cs ensures MetaOf(v').tables[z] == MetaOf(v).tables[z] {
      assert DirOk(MetaOf(v), g, z);
    }
  }

  lemma StrayChain(v: Volume, g: Shape, r: Request)
    requires WellFormed(v, g) && DeleteDefined(v, r) && DeleteCode(v, r) == 0
    requires var x := v.Table(r.parent)[DeleteSlot(v, r)].cluster; 3 <= x && v.fat[x] != EMPTY_ENTRY
    ensures var e := v.Table(r.parent)[DeleteSlot(v, r)];
            forall c :: c in Freed(v, e) && c < CLUSTER_MAP_SIZE ==> e.cluster <= c && g.owner[c] == g.owner[e.cluster]
  {
    var x := v.Table(r.parent)[DeleteSlot(v, r)].cluster;
    assert CellOk(v.fat, g, x);
    OwnedChain(v.fat, g, x);
  }

  // The volume survives a delete aimed at no directory only if the bytes it took for a directory
  // entry name a cluster that was free anyway.
  lemma StrayDeleteKeepsIff(v: Volume, g: Shape, r: Request)
    requires WellFormed(v, g) && DeleteDefined(v, r) && r.parent !in g.dirs && DeleteCode(v, r) == 0
    ensures (exists g' :: WellFormed(Delete(v, r), g')) <==>
              v.fat[v.Table(r.parent)[DeleteSlot(v, r)].cluster] == EMPTY_ENTRY
  {
    var m, m', e := MetaOf(v), MetaOf(Delete(v, r)), v.Table(r.parent)[DeleteSlot(v, r)];
    StrayDelete(v, g, r);
    if v.fat[e.cluster] == EMPTY_ENTRY {
      assert e.IsDir() && Freed(v, e) == [e.cluster];
      assert m'.fat == m.fat;
      assert DirOk(m, g, e.cluster);
      SameDirectoriesKeepInv(m, m', g);
      assert WellFormed(Delete(v, r), g);
    } else {
      if 3 <= e.cluster {
        StrayChain(v, g, r);
      }
      forall g' ensures !WellFormed(Delete(v, r), g') {
        ChainCut(m, g, m', g', Freed(v, e), e.cluster);
      }
    }
  }

  // When a successful delete does no harm. In a directory: it matched a child, not the parent entry
  // in slot 1, and a matched directory has nothing in slot 2, where the driver's emptiness scan does
  // not look. Elsewhere: the bytes read as an entry name a free cluster.
  predicate Harmless(v: Volume, g: Shape, r: Request)
    requires DeleteDefined(v, r) && DeleteCode(v, r) == 0
  {
    if r.parent in g.dirs then Removable(v, r)
    else v.fat[v.Table(r.parent)[DeleteSlot(v, r)].cluster] == EMPTY_ENTRY
  }

  // A successful delete keeps the volume well formed if and only if it does no harm.
  lemma DeleteKeepsWellFormedIff(v: Volume, g: Shape, r: Request)
    requires WellFormed(v, g) && DeleteDefined(v, r) && DeleteCode(v, r) == 0
    ensures (exists g' :: WellFormed(Delete(v, r), g')) <==> Harmless(v, g, r)
  {
    if r.parent in g.dirs {
      DirectoryDeleteKeepsIff(v, g, r);
    } else {
      StrayDeleteKeepsIff(v, g, r);
    }
  }
}
