/** Sizes, reserved values and little-endian words of the on-disk format. */
module Layout {
  const BLOCK_SIZE: nat := 512
  const CLUSTER_BLOCK_COUNT: nat := 4
  const CLUSTER_SIZE: nat := 2048
  const CLUSTER_MAP_SIZE: nat := 512
  const ENTRY_SIZE: nat := 32
  const TABLE_SLOTS: nat := 64

  const CLUSTER_0_VALUE: u32 := 0x0FFF_FFF0
  const CLUSTER_1_VALUE: u32 := 0x0FFF_FFFF
  const END_OF_FILE: u32 := 0x0FFF_FFFF
  const EMPTY_ENTRY: u32 := 0

  const FAT_CLUSTER: nat := 1
  const ROOT_CLUSTER: nat := 2

  const ATTR_SUBDIRECTORY: byte := 0x10
  const UATTR_NOT_EMPTY: byte := 0xAA

  type byte = x: int | 0 <= x < 0x100
  type u32 = x: int | 0 <= x < 0x1_0000_0000

  type Name = s: seq<byte> | |s| == 8 witness [0, 0, 0, 0, 0, 0, 0, 0]
  type Ext = s: seq<byte> | |s| == 3 witness [0, 0, 0]
  type Cluster = s: seq<byte> | |s| == CLUSTER_SIZE witness seq(CLUSTER_SIZE, _ => 0)

  const NO_NAME: Name := [0, 0, 0, 0, 0, 0, 0, 0]
  const NO_EXT: Ext := [0, 0, 0]

  function ZeroCluster(): Cluster {
    seq(CLUSTER_SIZE, _ => 0)
  }

  // Two 16-bit halves, each stored low byte first, as the entry keeps a cluster number.
  function LowHalf(x: u32): seq<byte>
    ensures |LowHalf(x)| == 2
  {
    [x % 0x100, x / 0x100 % 0x100]
  }

  function HighHalf(x: u32): seq<byte>
    ensures |HighHalf(x)| == 2
  {
    [x / 0x1_0000 % 0x100, x / 0x100_0000]
  }

  function Digits(a: int, b: int, c: int, d: int): int {
    a + 0x100 * (b + 0x100 * (c + 0x100 * d))
  }

  function Join(high: seq<byte>, low: seq<byte>): u32
    requires |high| == 2 && |low| == 2
  {
    Digits(low[0], low[1], high[0], high[1])
  }

  function EncodeWord(x: u32): seq<byte>
    ensures |EncodeWord(x)| == 4
  {
    LowHalf(x) + HighHalf(x)
  }

  function DecodeWord(b: seq<byte>): u32
    requires |b| == 4
  {
    Join(b[2..], b[..2])
  }

  lemma JoinHalves(x: u32)
    ensures Join(HighHalf(x), LowHalf(x)) == x
  {
    var q := x / 0x100;
    assert x / 0x1_0000 == q / 0x100;
    assert x / 0x100_0000 == q / 0x1_0000;
  }

  lemma HalvesOfJoin(high: seq<byte>, low: seq<byte>)
    requires |high| == 2 && |low| == 2
    ensures LowHalf(Join(high, low)) == low && HighHalf(Join(high, low)) == high
  {
    var x: int := Join(high, low);
    var y := low[1] as int + 0x100 * (high[0] as int + 0x100 * high[1] as int);
    var z := high[0] as int + 0x100 * high[1] as int;
    assert x == low[0] + 0x100 * y && x / 0x100 == y && x % 0x100 == low[0];
    assert y == low[1] + 0x100 * z && y / 0x100 == z && y % 0x100 == low[1];
    assert x / 0x1_0000 == z && x / 0x100_0000 == z / 0x100;
  }

  lemma WordRoundTrip(x: u32)
    ensures DecodeWord(EncodeWord(x)) == x
  {
    JoinHalves(x);
    assert EncodeWord(x)[..2] == LowHalf(x) && EncodeWord(x)[2..] == HighHalf(x);
  }

  lemma HalfDigits(x: u32)
    ensures HighHalf(x)[0] as int + 0x100 * HighHalf(x)[1] as int == x / 0x1_0000
    ensures LowHalf(x)[0] as int + 0x100 * LowHalf(x)[1] as int == x % 0x1_0000
  {
    JoinHalves(x);
    var q := x / 0x100;
    assert x / 0x1_0000 == q / 0x100 && x / 0x100_0000 == q / 0x1_0000;
  }

  // A word's four bytes, low byte first.
  lemma WordDigits(x: u32)
    ensures var b := EncodeWord(x);
            b[0] as int + 0x100 * b[1] as int + 0x1_0000 * b[2] as int + 0x100_0000 * b[3] as int == x
  {
    HalfDigits(x);
    assert EncodeWord(x)[0] == LowHalf(x)[0] && EncodeWord(x)[1] == LowHalf(x)[1];
    assert EncodeWord(x)[2] == HighHalf(x)[0] && EncodeWord(x)[3] == HighHalf(x)[1];
  }
}
