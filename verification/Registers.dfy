/** Machine words and the register context that the kernel saves for a process. */
module Registers {
  type word = x: int | 0 <= x < 0x1_0000_0000

  // struct CPURegister, eip and eflags of struct Context. Segment selectors sit in words of their own.
  datatype Context = Context(
    edi: word, esi: word, ebp: word, esp: word,
    ebx: word, edx: word, ecx: word, eax: word,
    gs: word, fs: word, es: word, ds: word,
    eip: word, eflags: word)

  // x with one bit set, and no other changed.
  function WithBit(x: word, bit: word): (r: word)
    requires bit == 0x2 || bit == 0x200
    ensures r / bit % 2 == 1 && r % bit == x % bit && r / bit / 2 == x / bit / 2
  {
    if x / bit % 2 == 1 then x
    else
      BitSet(x, bit);
      x + bit
  }

  // Adding a power of two whose bit is clear sets that bit, keeps the others and does not overflow.
  lemma BitSet(x: word, bit: word)
    requires bit == 0x2 || bit == 0x200
    requires x / bit % 2 == 0
    ensures (x as int) + bit < 0x1_0000_0000
    ensures (x + bit) / bit % 2 == 1
    ensures (x + bit) % bit == x % bit && (x + bit) / bit / 2 == x / bit / 2
  {
    if bit == 0x2 {
      DivideBy2(x + 0x2, x / 0x2 + 1, x % 0x2);
      NextIsOdd(x / 0x2);
    } else {
      DivideBy512(x + 0x200, x / 0x200 + 1, x % 0x200);
      NextIsOdd(x / 0x200);
    }
  }

  lemma DivideBy2(x: int, q: int, r: int)
    requires x == 0x2 * q + r && 0 <= r < 0x2
    ensures x / 0x2 == q && x % 0x2 == r
  {
  }

  lemma DivideBy512(x: int, q: int, r: int)
    requires x == 0x200 * q + r && 0 <= r < 0x200
    ensures x / 0x200 == q && x % 0x200 == r
  {
  }

  lemma NextIsOdd(q: nat)
    requires q % 2 == 0
    ensures (q + 1) % 2 == 1 && (q + 1) / 2 == q / 2
    ensures q < 0x8000_0000 ==> q + 1 < 0x8000_0000
    ensures q < 0x80_0000 ==> q + 1 < 0x80_0000
  {
  }

  // Bit 0, bits 2 to 8 and bits 10 to 31 are the same.
  predicate SameOtherFlags(x: word, y: word) {
    x % 2 == y % 2 && x / 4 % 128 == y / 4 % 128 && x / 0x400 == y / 0x400
  }

  // Setting bits 1 and 9 touches no other flag.
  lemma BaseFlags(x: word)
    ensures var y := WithBit(WithBit(x, 0x2), 0x200);
            y / 0x2 % 2 == 1 && y / 0x200 % 2 == 1 && SameOtherFlags(x, y)
  {
    var z := WithBit(x, 0x2);
    var y := WithBit(z, 0x200);
    Fields(x);
    Fields(z);
    Fields(y);
    assert x / 2 / 2 == z / 2 / 2;
  }

  // The fields of a word in terms of the low nine bits, and of the word without its low two.
  lemma Fields(x: word)
    ensures x % 2 == x % 0x200 % 2 && x / 2 % 2 == x % 0x200 / 2 % 2 && x / 4 % 128 == x % 0x200 / 4
    ensures x / 2 / 2 == x / 4 && x / 4 / 0x100 == x / 0x400 && x / 0x200 / 2 == x / 0x400
  {
    var q, r := x / 0x200, x % 0x200;
    assert x == 0x200 * q + r;
    Quarter(q, r);
    Half(q, r);
    ShiftTwice(x);
  }

  lemma Quarter(q: int, r: int)
    requires q >= 0 && 0 <= r < 0x200
    ensures (0x200 * q + r) / 4 % 128 == r / 4
  {
    assert (0x200 * q + r) / 4 == 128 * q + r / 4;
  }

  lemma Half(q: int, r: int)
    requires q >= 0 && 0 <= r < 0x200
    ensures (0x200 * q + r) / 2 % 2 == r / 2 % 2 && (0x200 * q + r) % 2 == r % 2
  {
    assert (0x200 * q + r) / 2 == 2 * (128 * q) + r / 2;
  }

  lemma ShiftTwice(x: int)
    requires x >= 0
    ensures x / 4 / 0x100 == x / 0x400 && x / 0x200 / 2 == x / 0x400
  {
  }

  const USER_CODE_SELECTOR: word := 0x1B
  const USER_DATA_SELECTOR: word := 0x23
  const KERNEL_DATA_SELECTOR: word := 0x10
}
