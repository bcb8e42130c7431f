/** The disk: a byte image read and written in 512-byte blocks. */
module BlockDevice {
  import opened Layout
  import opened FileSystem

  const IMAGE_SIZE: nat := 4 * 1024 * 1024

  // The clusters that the cluster map can name, as they lie in the image.
  function Clusters(image: seq<byte>): (d: Disk)
    requires |image| == IMAGE_SIZE
    ensures forall c: nat :: c < CLUSTER_MAP_SIZE ==> d[c] == image[CLUSTER_SIZE * c..CLUSTER_SIZE * (c + 1)]
  {
    seq(CLUSTER_MAP_SIZE, c requires 0 <= c < CLUSTER_MAP_SIZE => image[CLUSTER_SIZE * c..CLUSTER_SIZE * (c + 1)])
  }

  // s with the bytes from `at` on replaced by b.
  function Splice(s: seq<byte>, at: nat, b: seq<byte>): (s': seq<byte>)
    requires at + |b| <= |s|
    ensures |s'| == |s|
  {
    s[..at] + b + s[at + |b|..]
  }

  lemma SpliceAtStart(s: seq<byte>, b: seq<byte>)
    requires |b| <= |s|
    ensures Splice(s, 0, b) == b + s[|b|..]
  {
  }

  lemma SpliceWithin(s: seq<byte>, at: nat, b: seq<byte>)
    requires at + |b| <= |s|
    ensures Splice(s, at, b)[at..at + |b|] == b
  {
  }

  lemma SpliceElsewhere(s: seq<byte>, at: nat, b: seq<byte>, lo: nat, hi: nat)
    requires at + |b| <= |s| && lo <= hi <= |s| && (hi <= at || at + |b| <= lo)
    ensures Splice(s, at, b)[lo..hi] == s[lo..hi]
  {
    forall k | 0 <= k < hi - lo ensures Splice(s, at, b)[lo..hi][k] == s[lo..hi][k] {
    }
  }

  // Another stretch replaced right behind the first.
  lemma SpliceMore(s: seq<byte>, at: nat, b: seq<byte>, c: seq<byte>)
    requires at + |b| + |c| <= |s|
    ensures Splice(Splice(s, at, b), at + |b|, c) == Splice(s, at, b + c)
  {
  }

  // One more block of the source after the first n bytes.
  lemma SpliceBlock(s: seq<byte>, at: nat, source: seq<byte>, from: nat, n: nat)
    requires at + n + BLOCK_SIZE <= |s| && from + n + BLOCK_SIZE <= |source|
    ensures Splice(Splice(s, at, source[from..from + n]), at + n, source[from + n..from + n + BLOCK_SIZE])
            == Splice(s, at, source[from..from + n + BLOCK_SIZE])
  {
    var b, c := source[from..from + n], source[from + n..from + n + BLOCK_SIZE];
    assert source[from..from + n + BLOCK_SIZE] == b + c;
    SpliceMore(s, at, b, c);
  }

  // Replacing the bytes of one cluster replaces that cluster and no other.
  lemma ClusterReplaced(image: seq<byte>, c: nat, bytes: Cluster)
    requires |image| == IMAGE_SIZE && c < CLUSTER_MAP_SIZE
    ensures Clusters(Splice(image, CLUSTER_SIZE * c, bytes)) == Clusters(image)[c := bytes]
  {
    var image' := Splice(image, CLUSTER_SIZE * c, bytes);
    forall x: nat | x < CLUSTER_MAP_SIZE ensures Clusters(image')[x] == Clusters(image)[c := bytes][x] {
      if x == c {
        SpliceWithin(image, CLUSTER_SIZE * c, bytes);
      } else {
        SpliceElsewhere(image, CLUSTER_SIZE * c, bytes, CLUSTER_SIZE * x, CLUSTER_SIZE * (x + 1));
      }
    }
  }

  class ImageDisk {
    const storage: array<byte>

    ghost predicate Valid() {
      storage.Length == IMAGE_SIZE
    }

    constructor (image: array<byte>)
      requires image.Length == IMAGE_SIZE
      ensures Valid() && storage == image
    {
      storage := image;
    }

    // memcpy of one block.
    static method CopyBlock(dst: array<byte>, to: nat, src: array<byte>, from: nat)
      requires dst != src && to + BLOCK_SIZE <= dst.Length && from + BLOCK_SIZE <= src.Length
      modifies dst
      ensures dst[..] == Splice(old(dst[..]), to, src[from..from + BLOCK_SIZE])
    {
      forall j | 0 <= j < BLOCK_SIZE {
        dst[to + j] := src[from + j];
      }
    }

    // One turn of either loop: the block behind the n bytes copied so far.
    static method CopyNextBlock(dst: array<byte>, to: nat, src: array<byte>, from: nat, n: nat, ghost was: seq<byte>)
      requires dst != src && to + n + BLOCK_SIZE <= dst.Length == |was| && from + n + BLOCK_SIZE <= src.Length
      requires dst[..] == Splice(was, to, src[from..from + n])
      modifies dst
      ensures dst[..] == Splice(was, to, src[from..from + n + BLOCK_SIZE])
    {
      CopyBlock(dst, to + n, src, from + n);
      SpliceBlock(was, to, src[..], from, n);
    }

    method ReadBlocks(ptr: array<byte>, offset: nat, lba: nat, count: nat)
      requires Valid() && ptr != storage
      requires offset + BLOCK_SIZE * count <= ptr.Length && BLOCK_SIZE * (lba + count) <= storage.Length
      modifies ptr
      ensures ptr[..] == Splice(old(ptr[..]), offset, storage[BLOCK_SIZE * lba..BLOCK_SIZE * (lba + count)])
    {
      ghost var was := ptr[..];
      var from, n := BLOCK_SIZE * lba, 0;
      for i := 0 to count
        invariant n == BLOCK_SIZE * i && ptr[..] == Splice(was, offset, storage[from..from + n])
      {
        CopyNextBlock(ptr, offset, storage, from, n, was);
        n := n + BLOCK_SIZE;
      }
    }

    method WriteBlocks(ptr: array<byte>, offset: nat, lba: nat, count: nat)
      requires Valid() && ptr != storage
      requires offset + BLOCK_SIZE * count <= ptr.Length && BLOCK_SIZE * (lba + count) <= storage.Length
      modifies storage
      ensures storage[..] == Splice(old(storage[..]), BLOCK_SIZE * lba, ptr[offset..offset + BLOCK_SIZE * count])
    {
      ghost var was := storage[..];
      var to, n := BLOCK_SIZE * lba, 0;
      for i := 0 to count
        invariant n == BLOCK_SIZE * i && storage[..] == Splice(was, to, ptr[offset..offset + n])
      {
        CopyNextBlock(storage, to, ptr, offset, n, was);
        n := n + BLOCK_SIZE;
      }
    }
  }
}
