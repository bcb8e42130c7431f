/** The 32-byte directory entry, the 64-slot table that fills one cluster, and searches over it. */
module DirectoryTable {
  import opened Layout

  type Stamp7 = s: seq<byte> | |s| == 7 witness [0, 0, 0, 0, 0, 0, 0]
  type Stamp4 = s: seq<byte> | |s| == 4 witness [0, 0, 0, 0]

  // created holds undelete, create and access times; modified the modification time. The file
  // system never interprets either, but it carries them along when it rewrites a table.
  datatype DirEntry = DirEntry(
    name: Name,
    ext: Ext,
    attribute: byte,
    userAttribute: byte,
    created: Stamp7,
    cluster: u32,
    modified: Stamp4,
    filesize: u32)
  {
    predicate Used() { userAttribute == UATTR_NOT_EMPTY }

    predicate IsDir() { attribute == ATTR_SUBDIRECTORY }

    function Cleared(): DirEntry {
      this.(name := NO_NAME, ext := NO_EXT, attribute := 0, userAttribute := 0, cluster := 0, filesize := 0)
    }
  }

  const BLANK: DirEntry := DirEntry(NO_NAME, NO_EXT, 0, 0, [0, 0, 0, 0, 0, 0, 0], 0, [0, 0, 0, 0], 0)

  type Table = t: seq<DirEntry> | |t| == TABLE_SLOTS witness seq(TABLE_SLOTS, _ => BLANK)

  function BlankTable(): Table {
    seq(TABLE_SLOTS, _ => BLANK)
  }

  function EncodeEntry(e: DirEntry): (b: seq<byte>)
    ensures |b| == ENTRY_SIZE
  {
    e.name + e.ext + [e.attribute, e.userAttribute] + e.created
    + HighHalf(e.cluster) + e.modified + LowHalf(e.cluster) + EncodeWord(e.filesize)
  }

  function DecodeEntry(b: seq<byte>): DirEntry
    requires |b| == ENTRY_SIZE
  {
    DirEntry(b[..8], b[8..11], b[11], b[12], b[13..20], Join(b[20..22], b[26..28]), b[22..26], DecodeWord(b[28..]))
  }

  lemma EntryRoundTrip(e: DirEntry)
    ensures DecodeEntry(EncodeEntry(e)) == e
  {
    var b := EncodeEntry(e);
    assert b[..8] == e.name;
    assert b[8..11] == e.ext;
    assert b[13..20] == e.created;
    assert b[20..22] == HighHalf(e.cluster);
    assert b[22..26] == e.modified;
    assert b[26..28] == LowHalf(e.cluster);
    assert b[28..] == EncodeWord(e.filesize);
    JoinHalves(e.cluster);
    WordRoundTrip(e.filesize);
  }

  // Where each field lies: names and attributes at 0, 8, 11 and 12, the cluster's upper half at 20 and its
  // lower half at 26, the size at 28, each low byte first.
  lemma EntryLayout(e: DirEntry)
    ensures var b := EncodeEntry(e);
            && b[0..8] == e.name && b[8..11] == e.ext && b[11] == e.attribute && b[12] == e.userAttribute
            && b[20] as int + 0x100 * b[21] as int == e.cluster / 0x1_0000
            && b[26] as int + 0x100 * b[27] as int == e.cluster % 0x1_0000
            && b[28] as int + 0x100 * b[29] as int + 0x1_0000 * b[30] as int + 0x100_0000 * b[31] as int == e.filesize
  {
    var b := EncodeEntry(e);
    assert b[20..22] == HighHalf(e.cluster);
    assert b[26..28] == LowHalf(e.cluster);
    assert b[28..32] == EncodeWord(e.filesize);
    assert b[20] == HighHalf(e.cluster)[0] && b[21] == HighHalf(e.cluster)[1];
    assert b[26] == LowHalf(e.cluster)[0] && b[27] == LowHalf(e.cluster)[1];
    forall j | 0 <= j < 4 ensures b[28 + j] == EncodeWord(e.filesize)[j] {
      assert b[28 + j] == b[28..32][j];
    }
    HalfDigits(e.cluster);
    WordDigits(e.filesize);
  }

  lemma EntryRoundTripBytes(b: seq<byte>)
    requires |b| == ENTRY_SIZE
    ensures EncodeEntry(DecodeEntry(b)) == b
  {
    HalvesOfJoin(b[20..22], b[26..28]);
    HalvesOfJoin(b[28..][2..], b[28..][..2]);
    assert EncodeWord(DecodeWord(b[28..])) == b[28..];
    assert b == b[..8] + b[8..11] + [b[11], b[12]] + b[13..20] + b[20..22] + b[22..26] + b[26..28] + b[28..];
  }

  // Slot i of a table lies at bytes 32i to 32i + 31 of its cluster.
  function EncodeTable(t: Table): Cluster {
    seq(CLUSTER_SIZE, k requires 0 <= k < CLUSTER_SIZE => EncodeEntry(t[k / ENTRY_SIZE])[k % ENTRY_SIZE])
  }

  function SlotBytes(c: Cluster, i: nat): (b: seq<byte>)
    requires i < TABLE_SLOTS
    ensures |b| == ENTRY_SIZE
  {
    c[ENTRY_SIZE * i..ENTRY_SIZE * (i + 1)]
  }

  function DecodeTable(c: Cluster): Table {
    seq(TABLE_SLOTS, i requires 0 <= i < TABLE_SLOTS => DecodeEntry(SlotBytes(c, i)))
  }

  lemma SlotBytesOfEncoded(t: Table, i: nat)
    requires i < TABLE_SLOTS
    ensures SlotBytes(EncodeTable(t), i) == EncodeEntry(t[i])
  {
    forall j: nat | j < ENTRY_SIZE ensures SlotBytes(EncodeTable(t), i)[j] == EncodeEntry(t[i])[j] {
      var k := ENTRY_SIZE * i + j;
      assert k / ENTRY_SIZE == i && k % ENTRY_SIZE == j;
    }
  }

  // Slot i is 32 bytes from 32i on.
  lemma TableLayout(t: Table, i: nat)
    requires i < 64
    ensures EncodeTable(t)[32 * i..32 * i + 32] == EncodeEntry(t[i])
  {
    SlotBytesOfEncoded(t, i);
  }

  lemma DecodeEncodeTable(t: Table)
    ensures DecodeTable(EncodeTable(t)) == t
  {
    forall i: nat | i < TABLE_SLOTS ensures DecodeTable(EncodeTable(t))[i] == t[i] {
      SlotBytesOfEncoded(t, i);
      EntryRoundTrip(t[i]);
    }
  }

  // A table read from a cluster and written back unchanged leaves the cluster's bytes as they were.
  lemma EncodeDecodeTable(c: Cluster)
    ensures EncodeTable(DecodeTable(c)) == c
  {
    forall k: nat | k < CLUSTER_SIZE ensures EncodeTable(DecodeTable(c))[k] == c[k] {
      var i := k / ENTRY_SIZE;
      EntryRoundTripBytes(SlotBytes(c, i));
    }
  }

  // The searches made by the four operations.
  datatype Query =
    | FreeSlot
    | DirNamed(name: Name)
    | FileNamed(name: Name, ext: Ext)
    | Named(name: Name, ext: Ext)
    | Keyed(name: Name, ext: Ext, dir: bool)

  predicate Matches(q: Query, e: DirEntry) {
    match q
    case FreeSlot => !e.Used()
    case DirNamed(name) => e.Used() && e.name == name && e.IsDir()
    case FileNamed(name, ext) => e.Used() && e.name == name && !e.IsDir() && e.ext == ext
    case Named(name, ext) => e.Used() && e.name == name && e.ext == ext
    case Keyed(name, ext, dir) => e.Used() && e.name == name && e.ext == ext && e.IsDir() == dir
  }

  // The first slot at or after `from` that matches, or |t|.
  function First(t: seq<DirEntry>, q: Query, from: nat): (r: nat)
    requires from <= |t|
    ensures from <= r <= |t|
    ensures forall j :: from <= j < r ==> !Matches(q, t[j])
    ensures r < |t| ==> Matches(q, t[r])
    decreases |t| - from
  {
    if from == |t| || Matches(q, t[from]) then from else First(t, q, from + 1)
  }

  // A search that has passed i slots without a match and matches slot i has found the first match.
  lemma {:induction false} FirstIs(t: seq<DirEntry>, q: Query, from: nat, i: nat)
    requires from <= i <= |t|
    requires forall j :: from <= j < i ==> !Matches(q, t[j])
    requires i == |t| || Matches(q, t[i])
    ensures First(t, q, from) == i
    decreases i - from
  {
    if from < i {
      FirstIs(t, q, from + 1, i);
    }
  }

  // An entry put in the first free slot is the first of its name and extension, if it is the only one.
  lemma InsertedIsFirst(t: Table, i: nat, e: DirEntry)
    requires i == First(t, FreeSlot, 0) < TABLE_SLOTS && e.Used()
    requires forall j :: 0 <= j < TABLE_SLOTS && t[j].Used() ==> t[j].name != e.name || t[j].ext != e.ext
    ensures First(t[i := e], Named(e.name, e.ext), 0) == i
  {
    FirstIs(t[i := e], Named(e.name, e.ext), 0, i);
  }
}
