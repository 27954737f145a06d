/** Fixed-width integer types of the firmware (`uint8_t`, `uint16_t`,
    `uint32_t`) as bounded subsets of `int`, plus the small helpers shared by
    the other modules. */
module Types {

  /** `uint8_t` */
  type byte = x: int | 0 <= x < 0x100

  /** `uint16_t`, used for attribute handles and advertising intervals */
  type uint16 = x: int | 0 <= x < 0x1_0000

  /** `uint32_t`, used for the millisecond timer readings */
  type uint32 = x: int | 0 <= x < 0x1_0000_0000

  /** A 4-bit value: one hex digit's worth of a byte */
  type nibble = x: int | 0 <= x < 0x10

  /** Four opaque bytes: the in-memory image of one `float` sample */
  type Word = s: seq<byte> | |s| == 4 witness [0, 0, 0, 0]

  /** A 6-byte Bluetooth device address (`bd_addr`), least significant byte first */
  type Address = s: seq<byte> | |s| == 6 witness [0, 0, 0, 0, 0, 0]

  /** C's bitwise `x & y` on non-negative integers, one bit at a time from
      the least significant end. */
  function BitAnd(x: nat, y: nat): (r: nat)
    ensures r <= x && r <= y
    decreases x
  {
    if x == 0 || y == 0 then 0
    else 2 * BitAnd(x / 2, y / 2) + (if x % 2 == 1 && y % 2 == 1 then 1 else 0)
  }

  /** Peeling the lowest bit off an odd mask. */
  lemma OddMask(x: nat, m: nat)
    ensures BitAnd(x, 2 * m + 1) == 2 * BitAnd(x / 2, m) + x % 2
  {
    assert (2 * m + 1) / 2 == m && (2 * m + 1) % 2 == 1;
  }

  /** Peeling the lowest bit off an even mask. */
  lemma EvenMask(x: nat, m: nat)
    ensures BitAnd(x, 2 * m) == 2 * BitAnd(x / 2, m)
  {
    assert (2 * m) / 2 == m && (2 * m) % 2 == 0;
    if m == 0 {
      assert BitAnd(x / 2, m) == 0;
    }
  }

  /** Splitting a remainder into its lowest bit and the rest, for the
      masks the firmware uses. */
  lemma HalveMod4(x: nat)
    ensures x % 4 == 2 * ((x / 2) % 2) + x % 2
  {
    var q := x / 2;
    assert q == 2 * (q / 2) + q % 2;
    assert x == 4 * (q / 2) + 2 * (q % 2) + x % 2;
  }

  lemma HalveMod8(x: nat)
    ensures x % 8 == 2 * ((x / 2) % 4) + x % 2
  {
    var q := x / 2;
    assert q == 4 * (q / 4) + q % 4;
    assert x == 8 * (q / 4) + 2 * (q % 4) + x % 2;
  }

  lemma HalveMod16(x: nat)
    ensures x % 16 == 2 * ((x / 2) % 8) + x % 2
  {
    var q := x / 2;
    assert q == 8 * (q / 8) + q % 8;
    assert x == 16 * (q / 8) + 2 * (q % 8) + x % 2;
  }

  /** `x & 1` is the lowest bit. */
  lemma Mask1(x: nat)
    ensures BitAnd(x, 1) == x % 2
  {
    OddMask(x, 0);
  }

  lemma Mask3(x: nat)
    ensures BitAnd(x, 3) == x % 4
  {
    OddMask(x, 1); Mask1(x / 2); HalveMod4(x);
  }

  lemma Mask7(x: nat)
    ensures BitAnd(x, 7) == x % 8
  {
    OddMask(x, 3); Mask3(x / 2); HalveMod8(x);
  }

  /** Masking with 0x0F keeps the low nibble: `x & 0xF == x % 16`. */
  lemma LowNibble(x: nat)
    ensures BitAnd(x, 0x0F) == x % 0x10
  {
    OddMask(x, 7); Mask7(x / 2); HalveMod16(x);
  }

  datatype Option<+T> = None | Some(value: T)

  /** The byte values of a string of 7-bit ASCII characters. */
  function AsciiBytes(s: string): (r: seq<byte>)
    requires forall i | 0 <= i < |s| :: s[i] as int < 0x80
  {
    seq(|s|, i requires 0 <= i < |s| => s[i] as int)
  }
}
