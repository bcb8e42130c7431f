/**
 The 512-entry cluster map: chains, free clusters, the links first-fit allocation makes and the
 clearing that deletion does.
 */
module ClusterMap {
  import opened Layout

  type FatMap = m: seq<u32> | |m| == CLUSTER_MAP_SIZE witness seq(CLUSTER_MAP_SIZE, _ => 0)

  // Entry c of the map is the word at bytes 4c to 4c + 3 of its cluster.
  function EncodeMap(m: FatMap): Cluster {
    seq(CLUSTER_SIZE, k requires 0 <= k < CLUSTER_SIZE => EncodeWord(m[k / 4])[k % 4])
  }

  function WordBytes(b: Cluster, c: nat): (w: seq<byte>)
    requires c < CLUSTER_MAP_SIZE
    ensures |w| == 4
  {
    b[4 * c..4 * (c + 1)]
  }

  function DecodeMap(b: Cluster): FatMap {
    seq(CLUSTER_MAP_SIZE, c requires 0 <= c < CLUSTER_MAP_SIZE => DecodeWord(WordBytes(b, c)))
  }

  lemma MapRoundTrip(m: FatMap)
    ensures DecodeMap(EncodeMap(m)) == m
  {
    forall c: nat | c < CLUSTER_MAP_SIZE ensures DecodeMap(EncodeMap(m))[c] == m[c] {
      forall j: nat | j < 4 ensures WordBytes(EncodeMap(m), c)[j] == EncodeWord(m[c])[j] {
        var k := 4 * c + j;
        assert k / 4 == c && k % 4 == j;
      }
      assert WordBytes(EncodeMap(m), c) == EncodeWord(m[c]);
      WordRoundTrip(m[c]);
    }
  }

  // Entry c lies at bytes 4c to 4c + 3, low byte first.
  lemma MapLayout(m: FatMap, c: nat)
    requires c < 512
    ensures var b := EncodeMap(m);
            b[4 * c] as int + 0x100 * b[4 * c + 1] as int + 0x1_0000 * b[4 * c + 2] as int + 0x100_0000 * b[4 * c + 3] as int
            == m[c]
  {
    WordDigits(m[c]);
    forall j: nat | j < 4 ensures EncodeMap(m)[4 * c + j] == EncodeWord(m[c])[j] {
      assert (4 * c + j) / 4 == c && (4 * c + j) % 4 == j;
    }
    assert EncodeMap(m)[4 * c] == EncodeMap(m)[4 * c + 0];
  }

  // ---- Chains ----

  // The clusters visited by a walk from c that stops at the first link that does not go upwards.
  function Chain(m: FatMap, c: nat): (cs: seq<nat>)
    ensures |cs| > 0 && cs[0] == c
    ensures c < CLUSTER_MAP_SIZE ==> Ascending(cs)
    decreases CLUSTER_MAP_SIZE - c
  {
    if c < CLUSTER_MAP_SIZE && c < m[c] < CLUSTER_MAP_SIZE then [c] + Chain(m, m[c]) else [c]
  }

  // The walk from c never leaves the map and stops at an end-of-file mark.
  predicate Ends(m: FatMap, c: nat)
    decreases CLUSTER_MAP_SIZE - c
  {
    && c < CLUSTER_MAP_SIZE
    && (m[c] == END_OF_FILE || (c < m[c] < CLUSTER_MAP_SIZE && Ends(m, m[c])))
  }

  ghost predicate Ascending(cs: seq<nat>) {
    && (forall j :: 0 <= j < |cs| ==> cs[j] < CLUSTER_MAP_SIZE)
    && (forall j, k :: 0 <= j < k < |cs| ==> cs[j] < cs[k])
  }

  // A terminated chain is linked cluster by cluster, and only its last cluster is marked.
  lemma {:induction false} ChainLinks(m: FatMap, c: nat)
    requires Ends(m, c)
    ensures var cs := Chain(m, c);
            && (forall k :: 0 <= k < |cs| - 1 ==> m[cs[k]] == cs[k + 1])
            && m[cs[|cs| - 1]] == END_OF_FILE
    decreases CLUSTER_MAP_SIZE - c
  {
    if m[c] != END_OF_FILE {
      ChainLinks(m, m[c]);
    }
  }

  // The k-th turn of a walk: where the link leads.
  lemma NextOnChain(m: FatMap, c: nat, k: nat)
    requires Ends(m, c) && k < |Chain(m, c)|
    ensures Chain(m, c)[k] < CLUSTER_MAP_SIZE
    ensures m[Chain(m, c)[k]] == if k + 1 < |Chain(m, c)| then Chain(m, c)[k + 1] else END_OF_FILE
  {
    ChainLinks(m, c);
  }

  // Conversely, an ascending sequence linked this way is the chain of its first cluster.
  lemma {:induction false} LinkedIsChain(m: FatMap, cs: seq<nat>)
    requires |cs| > 0 && Ascending(cs)
    requires forall k :: 0 <= k < |cs| - 1 ==> m[cs[k]] == cs[k + 1]
    requires m[cs[|cs| - 1]] == END_OF_FILE
    ensures Chain(m, cs[0]) == cs && Ends(m, cs[0])
    decreases |cs|
  {
    if |cs| > 1 {
      assert m[cs[0]] == cs[1];
      LinkedIsChain(m, cs[1..]);
      assert cs == [cs[0]] + cs[1..];
    }
  }

  // A chain depends only on the map at its own clusters.
  lemma {:induction false} ChainFrame(m: FatMap, m': FatMap, c: nat)
    requires forall x :: x in Chain(m, c) && x < CLUSTER_MAP_SIZE ==> m'[x] == m[x]
    ensures Chain(m', c) == Chain(m, c)
    ensures Ends(m', c) == Ends(m, c)
    decreases CLUSTER_MAP_SIZE - c
  {
    assert c in Chain(m, c);
    if c < CLUSTER_MAP_SIZE && c < m[c] < CLUSTER_MAP_SIZE {
      forall x | x in Chain(m, m[c]) ensures x in Chain(m, c) {
      }
      ChainFrame(m, m', m[c]);
    }
  }

  // ---- First-fit allocation ----

  // The free clusters below n, in ascending order.
  function FreeBelow(m: FatMap, n: nat): (cs: seq<nat>)
    requires n <= CLUSTER_MAP_SIZE
    ensures forall k :: 0 <= k < |cs| ==> cs[k] < n && m[cs[k]] == EMPTY_ENTRY
    ensures Ascending(cs) && |cs| <= n
  {
    if n == 0 then []
    else if m[n - 1] == EMPTY_ENTRY then FreeBelow(m, n - 1) + [n - 1]
    else FreeBelow(m, n - 1)
  }

  function FreeClusters(m: FatMap): seq<nat> {
    FreeBelow(m, CLUSTER_MAP_SIZE)
  }

  lemma {:induction false} FreeBelowExact(m: FatMap, n: nat)
    requires n <= CLUSTER_MAP_SIZE
    ensures forall c: nat :: c in FreeBelow(m, n) <==> c < n && m[c] == EMPTY_ENTRY
  {
    if n > 0 {
      FreeBelowExact(m, n - 1);
    }
  }

  lemma {:induction false} FreeBelowPrefix(m: FatMap, n: nat, n': nat)
    requires n <= n' <= CLUSTER_MAP_SIZE
    ensures FreeBelow(m, n) <= FreeBelow(m, n')
  {
    if n < n' {
      FreeBelowPrefix(m, n, n' - 1);
    }
  }

  // The allocator's choice: the `count` lowest free clusters.
  function FirstFit(m: FatMap, count: nat): seq<nat>
    requires count <= |FreeClusters(m)|
  {
    FreeClusters(m)[..count]
  }

  // A scan that stops at `count` free clusters, or at the end of the map, has found the choice.
  lemma FirstFitReached(m: FatMap, n: nat, count: nat)
    requires n <= CLUSTER_MAP_SIZE && |FreeBelow(m, n)| <= count <= |FreeClusters(m)|
    requires n == CLUSTER_MAP_SIZE || |FreeBelow(m, n)| == count
    ensures FreeBelow(m, n) == FirstFit(m, count)
  {
    FreeBelowPrefix(m, n, CLUSTER_MAP_SIZE);
  }

  // First fit takes exactly the smallest free clusters, in ascending order: nothing free below the
  // last one taken is skipped.
  lemma FirstFitTakesLowest(m: FatMap, count: nat)
    requires count <= |FreeClusters(m)|
    ensures var cs := FirstFit(m, count);
            && |cs| == count && Ascending(cs)
            && (forall k :: 0 <= k < count ==> m[cs[k]] == EMPTY_ENTRY)
            && (forall c: nat, k :: 0 <= k < count && c <= cs[k] && m[c] == EMPTY_ENTRY ==> c in cs)
  {
    FreeBelowExact(m, CLUSTER_MAP_SIZE);
    var all, cs := FreeClusters(m), FirstFit(m, count);
    forall c: nat, k | 0 <= k < count && c <= cs[k] && m[c] == EMPTY_ENTRY ensures c in cs {
      assert c in all;
      var j :| 0 <= j < |all| && all[j] == c;
      assert j <= k;
      assert cs[j] == c;
    }
  }

  // Each cluster of cs but the last points to the next; the last is not yet marked.
  function Links(m: FatMap, cs: seq<nat>): FatMap
    requires Ascending(cs)
  {
    if |cs| <= 1 then m else Links(m, cs[..|cs| - 1])[cs[|cs| - 2] := cs[|cs| - 1]]
  }

  function LinkChain(m: FatMap, cs: seq<nat>): FatMap
    requires |cs| > 0 && Ascending(cs)
  {
    Links(m, cs)[cs[|cs| - 1] := END_OF_FILE]
  }

  lemma {:induction false} LinksPointwise(m: FatMap, cs: seq<nat>)
    requires Ascending(cs)
    ensures var m' := Links(m, cs);
            && (forall k :: 0 <= k < |cs| - 1 ==> m'[cs[k]] == cs[k + 1])
            && (|cs| > 0 ==> m'[cs[|cs| - 1]] == m[cs[|cs| - 1]])
            && (forall c: nat :: c < CLUSTER_MAP_SIZE && c !in cs ==> m'[c] == m[c])
  {
    if |cs| > 1 {
      var n := |cs| - 1;
      var init := cs[..n];
      LinksPointwise(m, init);
      var m1 := Links(m, init);
      assert Links(m, cs) == m1[cs[n - 1] := cs[n]];
      forall k | 0 <= k < n ensures Links(m, cs)[cs[k]] == cs[k + 1] {
        assert k < n - 1 ==> m1[init[k]] == init[k + 1];
      }
      assert cs[n] !in init;
      forall c: nat | c < CLUSTER_MAP_SIZE && c !in cs ensures Links(m, cs)[c] == m[c] {
        assert cs[n - 1] in cs;
        assert c !in init;
      }
    }
  }

  // Taking one more cluster adds one link, from the last one taken.
  lemma LinksExtend(m: FatMap, cs: seq<nat>, c: nat)
    requires Ascending(cs) && Ascending(cs + [c]) && c < CLUSTER_MAP_SIZE
    ensures cs == [] ==> Links(m, cs + [c]) == Links(m, cs)
    ensures cs != [] ==> Links(m, cs + [c]) == Links(m, cs)[cs[|cs| - 1] := c]
  {
    assert (cs + [c])[..|cs|] == cs;
  }

  // The links made so far leave the next candidate as it was.
  lemma NextCandidate(m: FatMap, i: nat)
    requires i < CLUSTER_MAP_SIZE
    ensures Links(m, FreeBelow(m, i))[i] == m[i]
    ensures FreeBelow(m, i + 1) == if m[i] == EMPTY_ENTRY then FreeBelow(m, i) + [i] else FreeBelow(m, i)
  {
    LinksPointwise(m, FreeBelow(m, i));
  }

  lemma LinkChainMakesChain(m: FatMap, cs: seq<nat>)
    requires |cs| > 0 && Ascending(cs)
    ensures var m' := LinkChain(m, cs);
            && Chain(m', cs[0]) == cs && Ends(m', cs[0])
            && (forall c: nat :: c < CLUSTER_MAP_SIZE && c !in cs ==> m'[c] == m[c])
            && (forall c :: c in cs ==> (m'[c] == END_OF_FILE || (c < m'[c] < CLUSTER_MAP_SIZE && m'[c] in cs)))
  {
    LinksPointwise(m, cs);
    var m' := LinkChain(m, cs);
    LinkedIsChain(m', cs);
    forall c | c in cs ensures m'[c] == END_OF_FILE || (c < m'[c] < CLUSTER_MAP_SIZE && m'[c] in cs) {
      var k :| 0 <= k < |cs| && cs[k] == c;
      if k < |cs| - 1 {
        assert m'[cs[k]] == cs[k + 1];
      }
    }
  }

  // ---- Release ----

  function Release(m: FatMap, cs: seq<nat>): FatMap
    requires forall k :: 0 <= k < |cs| ==> cs[k] < CLUSTER_MAP_SIZE
  {
    if cs == [] then m else Release(m, cs[..|cs| - 1])[cs[|cs| - 1] := EMPTY_ENTRY]
  }

  lemma {:induction false} ReleasePointwise(m: FatMap, cs: seq<nat>)
    requires forall k :: 0 <= k < |cs| ==> cs[k] < CLUSTER_MAP_SIZE
    ensures var m' := Release(m, cs);
            forall c: nat :: c < CLUSTER_MAP_SIZE ==> m'[c] == if c in cs then EMPTY_ENTRY else m[c]
  {
    if cs != [] {
      var init := cs[..|cs| - 1];
      ReleasePointwise(m, init);
      assert cs == init + [cs[|cs| - 1]];
    }
  }

  // One more cluster released: it still held its own link.
  lemma ReleaseNext(m: FatMap, cs: seq<nat>, k: nat)
    requires Ascending(cs) && k < |cs|
    ensures Release(m, cs[..k])[cs[k]] == m[cs[k]]
    ensures Release(m, cs[..k + 1]) == Release(m, cs[..k])[cs[k] := EMPTY_ENTRY]
  {
    ReleasePointwise(m, cs[..k]);
    assert cs[..k + 1][..k] == cs[..k];
  }

  // Linking free clusters into a chain and releasing that chain gives the map back.
  lemma ReleaseUndoesLinkChain(m: FatMap, cs: seq<nat>)
    requires |cs| > 0 && Ascending(cs)
    requires forall k :: 0 <= k < |cs| ==> m[cs[k]] == EMPTY_ENTRY
    ensures Chain(LinkChain(m, cs), cs[0]) == cs && Release(LinkChain(m, cs), cs) == m
  {
    LinkChainMakesChain(m, cs);
    ReleasePointwise(LinkChain(m, cs), cs);
  }

  // ---- Conservation ----

  lemma {:induction false} FreeBelowUpdate(m: FatMap, n: nat, i: nat, x: u32)
    requires n <= CLUSTER_MAP_SIZE && i < CLUSTER_MAP_SIZE
    ensures |FreeBelow(m[i := x], n)| + (if i < n && m[i] == EMPTY_ENTRY then 1 else 0)
            == |FreeBelow(m, n)| + if i < n && x == EMPTY_ENTRY then 1 else 0
  {
    if n > 0 {
      FreeBelowUpdate(m, n - 1, i, x);
    }
  }

  // Releasing distinct clusters in use frees exactly that many.
  lemma {:induction false} ReleaseFrees(m: FatMap, cs: seq<nat>)
    requires Ascending(cs) && forall k :: 0 <= k < |cs| ==> m[cs[k]] != EMPTY_ENTRY
    ensures |FreeClusters(Release(m, cs))| == |FreeClusters(m)| + |cs|
  {
    if cs != [] {
      var init, last := cs[..|cs| - 1], cs[|cs| - 1];
      ReleaseFrees(m, init);
      ReleasePointwise(m, init);
      assert last !in init;
      FreeBelowUpdate(Release(m, init), CLUSTER_MAP_SIZE, last, EMPTY_ENTRY);
    }
  }

  // Chaining free clusters uses up exactly that many.
  lemma LinkChainUses(m: FatMap, cs: seq<nat>)
    requires |cs| > 0 && Ascending(cs)
    requires forall k :: 0 <= k < |cs| ==> m[cs[k]] == EMPTY_ENTRY
    ensures |FreeClusters(LinkChain(m, cs))| + |cs| == |FreeClusters(m)|
  {
    LinkChainMakesChain(m, cs);
    ReleaseUndoesLinkChain(m, cs);
    forall k | 0 <= k < |cs| ensures LinkChain(m, cs)[cs[k]] != EMPTY_ENTRY {
      assert cs[k] in cs;
    }
    ReleaseFrees(LinkChain(m, cs), cs);
  }
}
