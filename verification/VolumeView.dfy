/**
 What a user of the file system sees: a map from (directory, name, extension, kind) to contents.
 Every operation on a well-formed volume is one change of this map, or none.
 */
module VolumeView {
  import opened Layout
  import opened DirectoryTable
  import opened ClusterMap
  import opened FileSystem
  import opened VolumeInvariant
  import opened VolumeOperations

  datatype Key = Key(dir: nat, name: Name, ext: Ext, isDir: bool)

  datatype Content = Data(bytes: seq<byte>) | SubDir(cluster: nat)

  type View = imap<Key, Content>

  function KeyOf(d: nat, e: DirEntry): Key {
    Key(d, e.name, e.ext, e.IsDir())
  }

  function ContentOf(v: Volume, e: DirEntry): Content {
    if e.IsDir() || e.cluster >= CLUSTER_MAP_SIZE then SubDir(e.cluster)
    else Data(Gather(v.disk, Chain(v.fat, e.cluster)))
  }

  // The child slot that holds k, or TABLE_SLOTS.
  function SlotOf(v: Volume, k: Key): nat
    requires k.dir < CLUSTER_MAP_SIZE
  {
    First(v.Table(k.dir), Keyed(k.name, k.ext, k.isDir), 2)
  }

  ghost predicate Holds(v: Volume, g: Shape, k: Key) {
    k.dir in g.dirs && k.dir < CLUSTER_MAP_SIZE && SlotOf(v, k) < TABLE_SLOTS
  }

  ghost function Seen(v: Volume, k: Key): Content
    requires k.dir < CLUSTER_MAP_SIZE && SlotOf(v, k) < TABLE_SLOTS
  {
    ContentOf(v, v.Table(k.dir)[SlotOf(v, k)])
  }

  ghost function ViewOf(v: Volume, g: Shape): View {
    imap k: Key | Holds(v, g, k) :: Seen(v, k)
  }

  // Each child entry is in the view under its own key, with its own content: no other slot of the
  // directory has that key.
  lemma ChildSeen(v: Volume, g: Shape, d: nat, i: nat)
    requires WellFormed(v, g) && Child(MetaOf(v), g, d, i)
    ensures KeyOf(d, v.Table(d)[i]) in ViewOf(v, g)
    ensures SlotOf(v, KeyOf(d, v.Table(d)[i])) == i
    ensures ViewOf(v, g)[KeyOf(d, v.Table(d)[i])] == ContentOf(v, v.Table(d)[i])
  {
    var t := v.Table(d);
    var k := KeyOf(d, t[i]);
    var j := SlotOf(v, k);
    assert KeysDistinct(MetaOf(v).tables[d], d == ROOT_CLUSTER);
    assert j <= i;
    assert SameKey(t[j], t[i]);
  }

  lemma SeenChild(v: Volume, g: Shape, k: Key)
    requires k in ViewOf(v, g)
    ensures Child(MetaOf(v), g, k.dir, SlotOf(v, k)) && KeyOf(k.dir, v.Table(k.dir)[SlotOf(v, k)]) == k
  {
  }

  // ---- Content is only read through the entry's own chain ----

  // The clusters of a file entry are neither directories nor cluster 1, nor on another entry's chain.
  lemma FileClusters(v: Volume, g: Shape, d: nat, i: nat)
    requires WellFormed(v, g) && Child(MetaOf(v), g, d, i) && !v.Table(d)[i].IsDir()
    ensures v.Table(d)[i].cluster < CLUSTER_MAP_SIZE
    ensures forall x :: x in Chain(v.fat, v.Table(d)[i].cluster) ==> x < CLUSTER_MAP_SIZE && x != FAT_CLUSTER && x !in g.dirs
  {
    var m := MetaOf(v);
    assert ChildOk(m, g, d, i);
    ChainIsOwnership(m, g, d, i);
    forall x | x in Chain(v.fat, v.Table(d)[i].cluster) ensures x !in g.dirs {
      assert DirOk(m, g, x);
    }
  }

  lemma ContentFrame(v: Volume, v': Volume, g: Shape, d: nat, i: nat)
    requires WellFormed(v, g) && Child(MetaOf(v), g, d, i)
    requires var first := v.Table(d)[i].cluster;
             && Chain(v'.fat, first) == Chain(v.fat, first)
             && forall x :: x in Chain(v.fat, first) && x < CLUSTER_MAP_SIZE && x != FAT_CLUSTER && x !in g.dirs ==>
                  v'.disk[x] == v.disk[x]
    ensures ContentOf(v', v.Table(d)[i]) == ContentOf(v, v.Table(d)[i])
  {
    if !v.Table(d)[i].IsDir() {
      FileClusters(v, g, d, i);
      var cs := Chain(v.fat, v.Table(d)[i].cluster);
      forall k | 0 <= k < |cs| ensures cs[k] < CLUSTER_MAP_SIZE && v'.disk[cs[k]] == v.disk[cs[k]] {
        assert cs[k] in cs;
      }
      GatherFrame(v.disk, v'.disk, cs);
    }
  }

  // Outside directory p, the clusters cs and cluster 1 the disk is unchanged.
  ghost predicate DiskFrame(v: Volume, v': Volume, p: nat, cs: seq<nat>) {
    forall x: nat :: x < CLUSTER_MAP_SIZE && x != p && x != FAT_CLUSTER && x !in cs ==> v'.disk[x] == v.disk[x]
  }

  // ---- Adding and removing one entry, on the view ----

  lemma AddedKeepsBinding(v: Volume, v': Volume, g: Shape, p: nat, i: nat, e: DirEntry, cs: seq<nat>, q: Key)
    requires WellFormed(v, g) && p in g.dirs && Added(MetaOf(v), MetaOf(v'), p, i, e, cs) && DiskFrame(v, v', p, cs)
    requires WellFormed(v', AddShape(g, p, i, e, cs)) && q in ViewOf(v, g)
    ensures q in ViewOf(v', AddShape(g, p, i, e, cs))
    ensures ViewOf(v', AddShape(g, p, i, e, cs))[q] == ViewOf(v, g)[q]
  {
    SeenChild(v, g, q);
    var m, m', d, j := MetaOf(v), MetaOf(v'), q.dir, SlotOf(v, q);
    AddedChildren(m, m', g, p, i, e, cs, d, j);
    AddedKeepsChain(m, m', g, p, i, e, cs, d, j);
    ContentFrame(v, v', g, d, j);
    ChildSeen(v', AddShape(g, p, i, e, cs), d, j);
  }

  lemma AddedNothingElse(v: Volume, v': Volume, g: Shape, p: nat, i: nat, e: DirEntry, cs: seq<nat>, q: Key)
    requires WellFormed(v, g) && p in g.dirs && Added(MetaOf(v), MetaOf(v'), p, i, e, cs)
    requires q in ViewOf(v', AddShape(g, p, i, e, cs)) && q != KeyOf(p, e)
    ensures q in ViewOf(v, g)
  {
    SeenChild(v', AddShape(g, p, i, e, cs), q);
    var m, m', d, j := MetaOf(v), MetaOf(v'), q.dir, SlotOf(v', q);
    assert KeyOf(d, m'.tables[d][j]) == q;
    AddedChildren(m, m', g, p, i, e, cs, d, j);
    ChildSeen(v, g, d, j);
  }

  lemma AddedIsNew(v: Volume, v': Volume, g: Shape, p: nat, i: nat, e: DirEntry, cs: seq<nat>)
    requires Added(MetaOf(v), MetaOf(v'), p, i, e, cs)
    ensures KeyOf(p, e) !in ViewOf(v, g)
  {
    var k := KeyOf(p, e);
    if k in ViewOf(v, g) {
      SeenChild(v, g, k);
      var j := SlotOf(v, k);
      assert SameKey(MetaOf(v).tables[p][j], e);
      assert false;
    }
  }

  lemma SameAsUpdate(before: View, after: View, k: Key, c: Content)
    requires k !in before && k in after && after[k] == c
    requires forall q :: q in before ==> q in after && after[q] == before[q]
    requires forall q :: q in after && q != k ==> q in before
    ensures after == before[k := c]
  {
  }

  lemma SameAsRemoval(before: View, after: View, k: Key)
    requires forall q :: q in before && q != k ==> q in after && after[q] == before[q]
    requires forall q :: q in after ==> q in before && q != k
    ensures after == before - {k}
  {
  }

  lemma AddedView(v: Volume, v': Volume, g: Shape, p: nat, i: nat, e: DirEntry, cs: seq<nat>)
    requires WellFormed(v, g) && p in g.dirs && Added(MetaOf(v), MetaOf(v'), p, i, e, cs) && DiskFrame(v, v', p, cs)
    ensures KeyOf(p, e) !in ViewOf(v, g)
    ensures ViewOf(v', AddShape(g, p, i, e, cs)) == ViewOf(v, g)[KeyOf(p, e) := ContentOf(v', e)]
  {
    var g', k := AddShape(g, p, i, e, cs), KeyOf(p, e);
    var before, after := ViewOf(v, g), ViewOf(v', g');
    AddedIsNew(v, v', g, p, i, e, cs);
    AddedKeepsInv(MetaOf(v), MetaOf(v'), g, p, i, e, cs);
    assert k in after && after[k] == ContentOf(v', e) by {
      AddedBinding(v, v', g, p, i, e, cs);
    }
    forall q | q in before ensures q in after && after[q] == before[q] {
      AddedKeepsBinding(v, v', g, p, i, e, cs, q);
    }
    forall q | q in after && q != k ensures q in before {
      AddedNothingElse(v, v', g, p, i, e, cs, q);
    }
    SameAsUpdate(before, after, k, ContentOf(v', e));
  }

  lemma AddedBinding(v: Volume, v': Volume, g: Shape, p: nat, i: nat, e: DirEntry, cs: seq<nat>)
    requires WellFormed(v, g) && p in g.dirs && Added(MetaOf(v), MetaOf(v'), p, i, e, cs)
    requires WellFormed(v', AddShape(g, p, i, e, cs))
    ensures KeyOf(p, e) in ViewOf(v', AddShape(g, p, i, e, cs))
    ensures ViewOf(v', AddShape(g, p, i, e, cs))[KeyOf(p, e)] == ContentOf(v', e)
  {
    assert MetaOf(v').tables[p][i] == e;
    ChildSeen(v', AddShape(g, p, i, e, cs), p, i);
  }

  lemma RemovedKeepsBinding(v: Volume, v': Volume, g: Shape, p: nat, i: nat, cs: seq<nat>, q: Key)
    requires WellFormed(v, g) && p in g.dirs && Removed(MetaOf(v), MetaOf(v'), p, i, cs) && DiskFrame(v, v', p, cs)
    requires WellFormed(v', RemoveShape(g, v.Table(p)[i], cs))
    requires q in ViewOf(v, g) && q != KeyOf(p, v.Table(p)[i])
    ensures q in ViewOf(v', RemoveShape(g, v.Table(p)[i], cs))
    ensures ViewOf(v', RemoveShape(g, v.Table(p)[i], cs))[q] == ViewOf(v, g)[q]
  {
    SeenChild(v, g, q);
    var m, m', d, j := MetaOf(v), MetaOf(v'), q.dir, SlotOf(v, q);
    RemovedChildren(m, m', g, p, i, cs, d, j);
    RemovedKeepsChain(m, m', g, p, i, cs, d, j);
    ContentFrame(v, v', g, d, j);
    ChildSeen(v', RemoveShape(g, v.Table(p)[i], cs), d, j);
  }

  lemma RemovedNothingElse(v: Volume, v': Volume, g: Shape, p: nat, i: nat, cs: seq<nat>, q: Key)
    requires WellFormed(v, g) && p in g.dirs && Removed(MetaOf(v), MetaOf(v'), p, i, cs)
    requires q in ViewOf(v', RemoveShape(g, v.Table(p)[i], cs))
    ensures q in ViewOf(v, g) && q != KeyOf(p, v.Table(p)[i])
  {
    SeenChild(v', RemoveShape(g, v.Table(p)[i], cs), q);
    var m, m', d, j := MetaOf(v), MetaOf(v'), q.dir, SlotOf(v', q);
    RemovedChildren(m, m', g, p, i, cs, d, j);
    assert KeyOf(d, m.tables[d][j]) == q;
    ChildSeen(v, g, d, j);
    ChildSeen(v, g, p, i);
  }

  lemma RemovedView(v: Volume, v': Volume, g: Shape, p: nat, i: nat, cs: seq<nat>)
    requires WellFormed(v, g) && p in g.dirs && Removed(MetaOf(v), MetaOf(v'), p, i, cs) && DiskFrame(v, v', p, cs)
    ensures KeyOf(p, v.Table(p)[i]) in ViewOf(v, g)
    ensures ViewOf(v', RemoveShape(g, v.Table(p)[i], cs)) == ViewOf(v, g) - {KeyOf(p, v.Table(p)[i])}
  {
    var e := v.Table(p)[i];
    var g', k := RemoveShape(g, e, cs), KeyOf(p, e);
    var before, after := ViewOf(v, g), ViewOf(v', g');
    RemovedKeepsInv(MetaOf(v), MetaOf(v'), g, p, i, cs);
    ChildSeen(v, g, p, i);
    forall q | q in before && q != k ensures q in after && after[q] == before[q] {
      RemovedKeepsBinding(v, v', g, p, i, cs, q);
    }
    forall q | q in after ensures q in before && q != k {
      RemovedNothingElse(v, v', g, p, i, cs, q);
    }
    SameAsRemoval(before, after, k);
  }
}
