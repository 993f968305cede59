// The button-side device handler (device_handler.c): the password the
// daemon registers with a scanner button (digit_to_hex, encode_password),
// the registration messages and their batching (register_scanner_driver),
// the text picked out of a button event (device_handler_extract_string and
// its two users), and the per-device ping/registration schedule of
// device_handler_loop. SNMP, sockets and the clock are parameters.

module DeviceHandler {

  import opened Bytes
  import Config

  // ---------------------------------------------------------------------
  // digit_to_hex

  /** "0123456789ABCDEF" */
  const HEX_DIGITS: seq<byte> := [48, 49, 50, 51, 52, 53, 54, 55, 56, 57, 65, 66, 67, 68, 69, 70]

  /** An upper-case hexadecimal digit. */
  predicate IsHexDigit(c: byte)
  {
    48 <= c <= 57 || 65 <= c <= 70
  }

  /** digit_to_hex: the digit of the low nibble of n (n & 0xf, which on a
      two's complement int is n mod 16 also for negative n). */
  function DigitToHex(n: int): (c: byte)
    ensures IsHexDigit(c)
    ensures HexValue(c) == n % 16
  {
    HEX_DIGITS[n % 16]
  }

  /** The value of an upper-case hexadecimal digit (0 for any other byte). */
  function HexValue(c: byte): (v: nat)
    ensures v < 16
  {
    if 48 <= c <= 57 then c - 48 else if 65 <= c <= 70 then c - 55 else 0
  }

  /** Each digit names exactly one nibble. */
  lemma HexDigitOfValue(c: byte)
    requires IsHexDigit(c)
    ensures DigitToHex(HexValue(c)) == c
  {
  }

  // ---------------------------------------------------------------------
  // Bit operations on unsigned bytes

  /** x >> k */
  function Shr(x: nat, k: nat): nat
  {
    if k == 0 then x else Shr(x / 2, k - 1)
  }

  /** x << k */
  function Shl(x: nat, k: nat): nat
  {
    if k == 0 then x else 2 * Shl(x, k - 1)
  }

  /** Bit k of x, counting the lowest as bit 0: (x >> k) & 1. */
  predicate BitOf(x: nat, k: nat)
  {
    Shr(x, k) % 2 == 1
  }

  /** x | y */
  function Or(x: nat, y: nat): nat
    decreases x + y
  {
    if x == 0 && y == 0 then 0
    else 2 * Or(x / 2, y / 2) + (if x % 2 == 1 || y % 2 == 1 then 1 else 0)
  }

  /** x ^ y */
  function Xor(x: nat, y: nat): nat
    decreases x + y
  {
    if x == 0 && y == 0 then 0
    else 2 * Xor(x / 2, y / 2) + (if (x % 2 == 1) != (y % 2 == 1) then 1 else 0)
  }

  lemma {:induction false} ShrStep(x: nat, k: nat)
    ensures Shr(x, k) / 2 == Shr(x, k + 1)
  {
    if k > 0 {
      ShrStep(x / 2, k - 1);
    }
  }

  lemma {:induction false} ZeroBits(k: nat)
    ensures !BitOf(0, k)
  {
    if k > 0 {
      ZeroBits(k - 1);
    }
  }

  lemma {:induction false} OrBits(x: nat, y: nat, k: nat)
    ensures BitOf(Or(x, y), k) == (BitOf(x, k) || BitOf(y, k))
  {
    if x == 0 && y == 0 {
      ZeroBits(k);
    } else if k > 0 {
      OrBits(x / 2, y / 2, k - 1);
    }
  }

  lemma {:induction false} XorBits(x: nat, y: nat, k: nat)
    ensures BitOf(Xor(x, y), k) == (BitOf(x, k) != BitOf(y, k))
  {
    if x == 0 && y == 0 {
      ZeroBits(k);
    } else if k > 0 {
      XorBits(x / 2, y / 2, k - 1);
    }
  }

  /** XOR-ing the same key twice gives x back. */
  lemma {:induction false} XorTwice(x: nat, y: nat)
    ensures Xor(Xor(x, y), y) == x
    decreases x + y
  {
    if !(x == 0 && y == 0) {
      XorTwice(x / 2, y / 2);
    }
  }

  /** A single bit b shifted left by k is set at bit k and nowhere else. */
  lemma {:induction false} ShlBits(b: nat, k: nat, k': nat)
    requires b < 2
    ensures BitOf(Shl(b, k), k') == (b == 1 && k == k')
  {
    if k == 0 {
      if k' > 0 {
        ZeroBits(k' - 1);
      }
    } else if k' > 0 {
      ShlBits(b, k - 1, k' - 1);
    }
  }

  /** Numbers below 2^n are told apart by their n low bits. */
  lemma {:induction false} BitsEqual(x: nat, y: nat, n: nat)
    requires x < Shl(1, n) && y < Shl(1, n)
    requires forall k :: 0 <= k < n ==> BitOf(x, k) == BitOf(y, k)
    ensures x == y
  {
    if n > 0 {
      forall k | 0 <= k < n - 1
        ensures BitOf(x / 2, k) == BitOf(y / 2, k)
      {
        assert BitOf(x, k + 1) == BitOf(y, k + 1);
      }
      assert BitOf(x, 0) == BitOf(y, 0);
      BitsEqual(x / 2, y / 2, n - 1);
    }
  }

  lemma {:induction false} OrBound(x: nat, y: nat, n: nat)
    requires x < Shl(1, n) && y < Shl(1, n)
    ensures Or(x, y) < Shl(1, n)
  {
    if n > 0 && !(x == 0 && y == 0) {
      OrBound(x / 2, y / 2, n - 1);
    }
  }

  lemma {:induction false} XorBound(x: nat, y: nat, n: nat)
    requires x < Shl(1, n) && y < Shl(1, n)
    ensures Xor(x, y) < Shl(1, n)
  {
    if n > 0 && !(x == 0 && y == 0) {
      XorBound(x / 2, y / 2, n - 1);
    }
  }

  lemma {:induction false} ShlBound(b: nat, k: nat, n: nat)
    requires b < 2 && k < n
    ensures Shl(b, k) < Shl(1, n)
  {
    if k > 0 {
      ShlBound(b, k - 1, n - 1);
    } else if n > 1 {
      ShlBound(b, 0, n - 1);
    }
  }

  lemma ByteBound()
    ensures Shl(1, 8) == 0x100
  {
    assert Shl(1, 4) == 16;
  }

  // ---------------------------------------------------------------------
  // encode_password

  /** A bit position in the 32-bit scratch: bit p % 8 of byte p / 8. */
  type BitIndex = p: nat | p < 32

  /** g_pass_shuffle_table: bit j of password byte i goes to scratch bit
      SHUFFLE[8 * i + j]. */
  const SHUFFLE: seq<BitIndex> := [
    5, 10, 31, 24, 8, 30, 28, 1, 17, 13, 12, 14, 27, 3, 21, 22,
    29, 20, 0, 7, 16, 11, 25, 4, 19, 18, 6, 26, 9, 2, 15, 23]

  /** The inverse of the shuffle table, UNSHUFFLE[SHUFFLE[m]] == m; it
      serves only to show that no two password bits share a scratch bit. */
  const UNSHUFFLE: seq<BitIndex> := [
    18, 7, 29, 13, 23, 0, 26, 19, 4, 28, 1, 21, 10, 9, 11, 30,
    20, 8, 25, 24, 17, 14, 15, 31, 3, 22, 27, 12, 6, 16, 5, 2]

  /** g_pass_key, XOR-ed into the four scratch bytes. */
  const KEY: seq<byte> := [0xCA, 0xFE, 0x28, 0xA9]

  lemma UnshuffleLow()
    ensures forall m :: 0 <= m < 16 ==> UNSHUFFLE[SHUFFLE[m]] == m
  {
  }

  lemma UnshuffleHigh()
    ensures forall m :: 16 <= m < 32 ==> UNSHUFFLE[SHUFFLE[m]] == m
  {
  }

  /** The shuffle table is one-to-one: no two password bits go to the same
      scratch bit. */
  lemma ShuffleInjective(m: nat, m': nat)
    requires m < 32 && m' < 32 && m != m'
    ensures SHUFFLE[m] != SHUFFLE[m']
  {
    UnshuffleLow();
    UnshuffleHigh();
  }

  /** One step of the inner loop, tmp_buf[t >> 3] |= (tmp & 1) << (t & 7),
      on the byte tmp_buf[t >> 3] with k = t & 7. */
  function MoveBit(x: byte, c: nat, k: nat): (r: byte)
    requires k < 8
  {
    ShlBound(c % 2, k, 8);
    ByteBound();
    OrBound(x, Shl(c % 2, k), 8);
    Or(x, Shl(c % 2, k))
  }

  /** MoveBit sets bit k when c is odd and keeps every other bit. */
  lemma MoveBitBits(x: byte, c: nat, k: nat, k': nat)
    requires k < 8
    ensures BitOf(MoveBit(x, c, k), k') == (BitOf(x, k') || (k' == k && c % 2 == 1))
  {
    OrBits(x, Shl(c % 2, k), k');
    ShlBits(c % 2, k, k');
  }

  /** tmp_buf[0..4] after the first n steps of the shuffle loops: step
      8 * i + j moves bit j of password byte i, the low bit of the byte
      shifted right j times, into scratch bit SHUFFLE[8 * i + j]. */
  function PartialScratch(pass: seq<byte>, n: nat): (r: seq<byte>)
    requires |pass| == 4 && n <= 32
    ensures |r| == 4
  {
    if n == 0 then [0, 0, 0, 0]
    else
      var b := PartialScratch(pass, n - 1);
      var t := SHUFFLE[n - 1];
      b[t / 8 := MoveBit(b[t / 8], Shr(pass[(n - 1) / 8], (n - 1) % 8), t % 8)]
  }

  /** Scratch bit p of four bytes. */
  predicate ScratchBit(bytes: seq<byte>, p: BitIndex)
    requires |bytes| == 4
  {
    BitOf(bytes[p / 8], p % 8)
  }

  /** What step n does to scratch bit p. */
  lemma PartialStepBit(pass: seq<byte>, n: nat, p: BitIndex)
    requires |pass| == 4 && n < 32
    ensures ScratchBit(PartialScratch(pass, n + 1), p) ==
      (ScratchBit(PartialScratch(pass, n), p) || (p == SHUFFLE[n] && BitOf(pass[n / 8], n % 8)))
  {
    var b := PartialScratch(pass, n);
    var t := SHUFFLE[n];
    if p / 8 == t / 8 {
      MoveBitBits(b[t / 8], Shr(pass[n / 8], n % 8), t % 8, p % 8);
    }
  }

  /** A scratch bit that no step has reached is still clear. */
  lemma {:induction false} PartialClear(pass: seq<byte>, n: nat, p: BitIndex)
    requires |pass| == 4 && n <= 32
    requires forall m :: 0 <= m < n ==> SHUFFLE[m] != p
    ensures !ScratchBit(PartialScratch(pass, n), p)
  {
    if n == 0 {
      ZeroBits(p % 8);
    } else {
      PartialClear(pass, n - 1, p);
      PartialStepBit(pass, n - 1, p);
    }
  }

  /** Right after step m, scratch bit SHUFFLE[m] holds password bit m:
      no earlier step wrote to it. */
  lemma PartialAtStep(pass: seq<byte>, m: nat)
    requires |pass| == 4 && m < 32
    ensures ScratchBit(PartialScratch(pass, m + 1), SHUFFLE[m]) == BitOf(pass[m / 8], m % 8)
  {
    forall m' | 0 <= m' < m
      ensures SHUFFLE[m'] != SHUFFLE[m]
    {
      ShuffleInjective(m', m);
    }
    PartialClear(pass, m, SHUFFLE[m]);
    PartialStepBit(pass, m, SHUFFLE[m]);
  }

  /** Once step m has run, scratch bit SHUFFLE[m] holds password bit m:
      no later step writes to it. */
  lemma {:induction false} PartialAt(pass: seq<byte>, n: nat, m: nat)
    requires |pass| == 4 && m < n <= 32
    ensures ScratchBit(PartialScratch(pass, n), SHUFFLE[m]) == BitOf(pass[m / 8], m % 8)
  {
    if m == n - 1 {
      PartialAtStep(pass, m);
    } else {
      PartialStepBit(pass, n - 1, SHUFFLE[m]);
      ShuffleInjective(m, n - 1);
      PartialAt(pass, n - 1, m);
    }
  }

  /** The XOR of two bytes is a byte. */
  function XorByte(x: byte, y: byte): (r: byte)
  {
    ByteBound();
    XorBound(x, y, 8);
    Xor(x, y)
  }

  /** XOR with the key, byte by byte. */
  function WithKey(bytes: seq<byte>): (r: seq<byte>)
    requires |bytes| == 4
    ensures |r| == 4
  {
    seq(4, q requires 0 <= q < 4 => XorByte(bytes[q], KEY[q]))
  }

  /** The key undoes itself. */
  lemma WithKeyTwice(bytes: seq<byte>)
    requires |bytes| == 4
    ensures WithKey(WithKey(bytes)) == bytes
  {
    forall q | 0 <= q < 4
      ensures WithKey(WithKey(bytes))[q] == bytes[q]
    {
      XorTwice(bytes[q], KEY[q]);
    }
  }

  /** The four scratch bytes after the XOR with the key. */
  function Keyed(pass: seq<byte>): (r: seq<byte>)
    requires |pass| == 4
    ensures |r| == 4
  {
    WithKey(PartialScratch(pass, 32))
  }

  /** Two hexadecimal digits per byte, high nibble first (for an unsigned
      byte, x >> 4 is x / 16 and x & 0xF is x % 16). */
  function Hex(bytes: seq<byte>): (r: seq<byte>)
    ensures |r| == 2 * |bytes|
  {
    if bytes == [] then []
    else [DigitToHex(bytes[0] / 16), DigitToHex(bytes[0] % 16)] + Hex(bytes[1..])
  }

  /** Hex writes only upper-case hexadecimal digits. */
  lemma {:induction false} HexDigits(bytes: seq<byte>)
    ensures forall k :: 0 <= k < |Hex(bytes)| ==> IsHexDigit(Hex(bytes)[k])
  {
    if bytes != [] {
      HexDigits(bytes[1..]);
    }
  }

  lemma {:induction false} HexAppend(bytes: seq<byte>, x: byte)
    ensures Hex(bytes + [x]) == Hex(bytes) + [DigitToHex(x / 16), DigitToHex(x % 16)]
  {
    if bytes != [] {
      assert (bytes + [x])[1..] == bytes[1..] + [x];
      HexAppend(bytes[1..], x);
    }
  }

  /** The byte two hexadecimal digits spell, high nibble first. */
  function HexByte(hi: byte, lo: byte): (r: byte)
  {
    HexValue(hi) * 16 + HexValue(lo)
  }

  /** The two digits Hex writes for x spell x again. */
  lemma HexByteOfDigits(x: byte)
    ensures HexByte(DigitToHex(x / 16), DigitToHex(x % 16)) == x
  {
    assert HexValue(DigitToHex(x / 16)) == x / 16;
    assert HexValue(DigitToHex(x % 16)) == x % 16;
  }

  /** Reading bytes back from their two digits each. */
  function Unhex(hex: seq<byte>): (r: seq<byte>)
    ensures |r| == |hex| / 2
  {
    if |hex| < 2 then [] else [HexByte(hex[0], hex[1])] + Unhex(hex[2..])
  }

  lemma {:induction false} UnhexHex(bytes: seq<byte>)
    ensures Unhex(Hex(bytes)) == bytes
  {
    if bytes != [] {
      var x := bytes[0];
      var h := Hex(bytes);
      assert h[0] == DigitToHex(x / 16) && h[1] == DigitToHex(x % 16);
      assert h[2..] == Hex(bytes[1..]);
      HexByteOfDigits(x);
      UnhexHex(bytes[1..]);
    }
  }

  /** The text encode_password writes before its NUL. */
  function EncodedPassword(pass: seq<byte>): (r: seq<byte>)
    requires |pass| == 4
    ensures |r| == 8 && forall k :: 0 <= k < 8 ==> IsHexDigit(r[k])
    ensures Unhex(r) == Keyed(pass)
  {
    HexDigits(Keyed(pass));
    UnhexHex(Keyed(pass));
    Hex(Keyed(pass))
  }

  /** The number whose bit k is bits[k]. */
  function Collect(bits: seq<bool>): (r: nat)
  {
    if bits == [] then 0 else (if bits[0] then 1 else 0) + 2 * Collect(bits[1..])
  }

  lemma {:induction false} CollectBits(bits: seq<bool>, k: nat)
    ensures BitOf(Collect(bits), k) == (k < |bits| && bits[k])
  {
    if bits == [] {
      ZeroBits(k);
    } else if k > 0 {
      assert Collect(bits) / 2 == Collect(bits[1..]);
      CollectBits(bits[1..], k - 1);
    }
  }

  lemma {:induction false} CollectBound(bits: seq<bool>)
    ensures Collect(bits) < Shl(1, |bits|)
  {
    if bits != [] {
      CollectBound(bits[1..]);
    }
  }

  /** The eight scratch bits the shuffle table assigns to password byte i. */
  function Gather(scratch: seq<byte>, i: nat): (r: seq<bool>)
    requires |scratch| == 4 && i < 4
    ensures |r| == 8
  {
    seq(8, k requires 0 <= k < 8 => ScratchBit(scratch, SHUFFLE[8 * i + k]))
  }

  /** The password an encoded text came from: undo the hexadecimal digits,
      the key and the shuffle. */
  function DecodedPassword(hex: seq<byte>): (r: seq<nat>)
    requires |hex| == 8
    ensures |r| == 4
  {
    var scratch := WithKey(Unhex(hex));
    seq(4, i requires 0 <= i < 4 => Collect(Gather(scratch, i)))
  }

  /** Bit k of the gathered byte i is bit k of pass[i]. */
  lemma GatherBit(pass: seq<byte>, i: nat, k: nat)
    requires |pass| == 4 && i < 4 && k < 8
    ensures BitOf(Collect(Gather(PartialScratch(pass, 32), i)), k) == BitOf(pass[i], k)
  {
    CollectBits(Gather(PartialScratch(pass, 32), i), k);
    assert (8 * i + k) / 8 == i && (8 * i + k) % 8 == k;
    PartialAt(pass, 32, 8 * i + k);
  }

  /** Gathering the bits of the full scratch gives each password byte. */
  lemma GatherPassword(pass: seq<byte>, i: nat)
    requires |pass| == 4 && i < 4
    ensures Collect(Gather(PartialScratch(pass, 32), i)) == pass[i]
  {
    var bits := Gather(PartialScratch(pass, 32), i);
    forall k | 0 <= k < 8
      ensures BitOf(Collect(bits), k) == BitOf(pass[i], k)
    {
      GatherBit(pass, i, k);
    }
    CollectBound(bits);
    ByteBound();
    BitsEqual(Collect(bits), pass[i], 8);
  }

  /** Decoding an encoded password gives the password back. */
  lemma DecodeEncoded(pass: seq<byte>)
    requires |pass| == 4
    ensures var e := EncodedPassword(pass); |e| == 8 && DecodedPassword(e) == pass
  {
    var scratch := PartialScratch(pass, 32);
    UnhexHex(Keyed(pass));
    WithKeyTwice(scratch);
    forall i | 0 <= i < 4
      ensures DecodedPassword(EncodedPassword(pass))[i] == pass[i]
    {
      GatherPassword(pass, i);
    }
  }

  /** Different four-byte passwords encode differently. */
  lemma EncodingInjective(p1: seq<byte>, p2: seq<byte>)
    requires |p1| == 4 && |p2| == 4 && EncodedPassword(p1) == EncodedPassword(p2)
    ensures p1 == p2
  {
    DecodeEncoded(p1);
    DecodeEncoded(p2);
  }

  /** The loop body for byte i, bit j, on a 32-byte tmp_buf whose first
      four bytes hold the first 8 * i + j steps, when the shifted byte c
      holds bit j of pass[i] in its lowest position. */
  lemma ShuffleStep(pass: seq<byte>, i: nat, j: nat, n: nat, c: nat, a: seq<byte>)
    requires |pass| == 4 && i < 4 && j < 8 && n == 8 * i + j && |a| == 32
    requires c == Shr(pass[i], j) && a[..4] == PartialScratch(pass, n)
    ensures var t := SHUFFLE[n];
      a[t / 8 := MoveBit(a[t / 8], c, t % 8)][..4] == PartialScratch(pass, n + 1)
  {
    assert n / 8 == i && n % 8 == j;
    var t := SHUFFLE[n];
    PrefixUpdate(a, PartialScratch(pass, n), t / 8, MoveBit(a[t / 8], c, t % 8));
  }

  /** Writing one of the first four slots of a 32-byte buffer. */
  lemma PrefixUpdate(a: seq<byte>, b: seq<byte>, k: nat, v: byte)
    requires |a| == 32 && |b| == 4 && k < 4 && a[..4] == b
    ensures a[k := v][..4] == b[k := v]
  {
  }

  /** The inner shuffle loop: the eight bits of pass[i], lowest first. */
  method ShuffleByte(pass: seq<byte>, i: nat, scratch: array<byte>)
    requires |pass| == 4 && i < 4 && scratch.Length == 32
    requires scratch[..4] == PartialScratch(pass, 8 * i)
    modifies scratch
    ensures scratch[..4] == PartialScratch(pass, 8 * i + 8)
  {
    var c: nat := pass[i];
    var j: nat := 0;
    ghost var n: nat := 8 * i;
    while j < 8
      invariant j <= 8 && n == 8 * i + j && c == Shr(pass[i], j)
      invariant scratch[..4] == PartialScratch(pass, n)
    {
      var t := SHUFFLE[8 * i + j];
      assert scratch[..][..4] == scratch[..4];
      ShuffleStep(pass, i, j, n, c, scratch[..]);
      scratch[t / 8] := MoveBit(scratch[t / 8], c, t % 8);
      ShrStep(pass[i], j);
      c := c / 2;
      j := j + 1;
      n := n + 1;
    }
  }

  /** The shuffle loops of encode_password, on a zeroed tmp_buf. */
  method Shuffle(pass: seq<byte>) returns (scratch: array<byte>)
    requires |pass| == 4
    ensures fresh(scratch) && scratch.Length == 32
    ensures scratch[..4] == PartialScratch(pass, 32)
  {
    scratch := new byte[32](_ => 0);
    var i: nat := 0;
    while i < 4
      invariant i <= 4 && scratch.Length == 32
      invariant scratch[..4] == PartialScratch(pass, 8 * i)
    {
      ShuffleByte(pass, i, scratch);
      i := i + 1;
    }
  }

  /** The XOR loop of encode_password: tmp_buf[i] ^= key[i] for i < 4. */
  method ApplyKey(scratch: array<byte>)
    requires scratch.Length == 32
    modifies scratch
    ensures scratch[..4] == WithKey(old(scratch[..4]))
  {
    ghost var plain := scratch[..4];
    var k: nat := 0;
    while k < 4
      invariant k <= 4
      invariant forall q :: 0 <= q < k ==> scratch[q] == WithKey(plain)[q]
      invariant forall q :: k <= q < 4 ==> scratch[q] == plain[q]
    {
      scratch[k] := XorByte(scratch[k], KEY[k]);
      k := k + 1;
    }
  }

  /** The hexadecimal loop of encode_password: two digits per byte into
      buf[0..2 * |bytes|], nothing else touched. */
  method WriteHex(bytes: array<byte>, n: nat, buf: array<byte>)
    requires n <= bytes.Length && 2 * n <= buf.Length && bytes != buf
    modifies buf
    ensures buf[..2 * n] == Hex(bytes[..n])
    ensures buf[2 * n..] == old(buf[2 * n..])
  {
    var k: nat := 0;
    while k < n
      invariant k <= n
      invariant buf[..2 * k] == Hex(bytes[..k])
      invariant buf[2 * n..] == old(buf[2 * n..])
    {
      var v := bytes[k];
      HexAppend(bytes[..k], v);
      assert bytes[..k + 1] == bytes[..k] + [v];
      buf[2 * k] := DigitToHex(v / 16);
      buf[2 * k + 1] := DigitToHex(v % 16);
      k := k + 1;
    }
  }

  /** encode_password: reads the first four bytes of pass, writes eight
      upper-case hexadecimal digits and a NUL into buf, and returns 0. */
  method EncodePassword(pass: seq<byte>, buf: array<byte>) returns (rc: int)
    requires |pass| >= 4 && buf.Length >= 9
    modifies buf
    ensures rc == 0
    ensures buf[..8] == EncodedPassword(pass[..4]) && buf[8] == 0
    ensures buf[9..] == old(buf[9..])
  {
    var scratch := Shuffle(pass[..4]);
    ApplyKey(scratch);
    WriteHex(scratch, 4, buf);
    buf[8] := 0;
    assert buf[9..] == old(buf[9..]);
    rc := 0;
  }

  // ---------------------------------------------------------------------
  // device_handler_extract_string, _hostname, _func

  /** pat occurs in s starting at position p. */
  predicate OccursAt(s: seq<byte>, pat: seq<byte>, p: nat)
  {
    p + |pat| <= |s| && s[p..p + |pat|] == pat
  }

  /** pat does not occur in s at any position below n. */
  predicate AbsentBelow(s: seq<byte>, pat: seq<byte>, n: nat)
  {
    forall q :: 0 <= q < n ==> !OccursAt(s, pat, q)
  }

  /** strstr: the first position at which pat occurs in s. */
  function Find(s: seq<byte>, pat: seq<byte>): (r: Option<nat>)
    ensures r.Some? ==> OccursAt(s, pat, r.value) && AbsentBelow(s, pat, r.value)
    ensures r.None? <==> AbsentBelow(s, pat, |s| + 1)
  {
    FindFrom(s, pat, 0)
  }

  function FindFrom(s: seq<byte>, pat: seq<byte>, i: nat): (r: Option<nat>)
    ensures r.Some? ==> i <= r.value && OccursAt(s, pat, r.value)
    ensures r.Some? ==> forall q :: i <= q < r.value ==> !OccursAt(s, pat, q)
    ensures r.None? <==> forall q :: i <= q <= |s| ==> !OccursAt(s, pat, q)
    decreases |s| - i
  {
    if i + |pat| > |s| then None
    else if s[i..i + |pat|] == pat then assert OccursAt(s, pat, i); Some(i)
    else FindFrom(s, pat, i + 1)
  }

  /** device_handler_extract_string over the C string s at buf (the bytes
      strstr sees, before the first NUL): the text between the first
      occurrence of before and the first occurrence of after that follows
      it; None (NULL) when either is missing. The text holds no NUL and no
      occurrence of after but the one that closes it. */
  function ExtractString(s: seq<byte>, before: seq<byte>, after: seq<byte>): (r: Option<seq<byte>>)
    requires 0 !in s
    ensures Find(s, before).None? ==> r.None?
    ensures r.Some? ==> 0 !in r.value && forall j :: 0 <= j < |r.value| ==> !OccursAt(r.value + after, after, j)
  {
    match Find(s, before)
    case None => None
    case Some(p) =>
      var rest := s[p + |before|..];
      match Find(rest, after)
      case None => None
      case Some(q) =>
        PrefixAbsent(rest, after, q);
        Some(rest[..q])
  }

  /** Before the first occurrence of pat at q, pat does not occur in the
      prefix closed by it either. */
  lemma PrefixAbsent(rest: seq<byte>, pat: seq<byte>, q: nat)
    requires OccursAt(rest, pat, q) && AbsentBelow(rest, pat, q)
    ensures forall j :: 0 <= j < q ==> !OccursAt(rest[..q] + pat, pat, j)
  {
    assert rest[..q] + pat == rest[..q + |pat|];
    forall j | 0 <= j < q
      ensures !OccursAt(rest[..q] + pat, pat, j)
    {
      assert !OccursAt(rest, pat, j);
      if j + |pat| <= q + |pat| {
        assert (rest[..q] + pat)[j..j + |pat|] == rest[j..j + |pat|];
      }
    }
  }

  /** The first occurrence is the one with none before it. */
  lemma FindIs(s: seq<byte>, pat: seq<byte>, p: nat)
    requires OccursAt(s, pat, p) && AbsentBelow(s, pat, p)
    ensures Find(s, pat) == Some(p)
  {
    assert !AbsentBelow(s, pat, |s| + 1);
  }

  /** Building a message around a value and extracting it again gives the
      value back, provided before first occurs right after x and after does
      not occur inside v. */
  lemma ExtractComposed(x: seq<byte>, before: seq<byte>, v: seq<byte>, after: seq<byte>, y: seq<byte>)
    requires 0 !in x + before + v + after + y
    requires AbsentBelow(x + before + v + after + y, before, |x|)
    requires AbsentBelow(v + after + y, after, |v|)
    ensures ExtractString(x + before + v + after + y, before, after) == Some(v)
  {
    var buf := x + before + v + after + y;
    var rest := v + after + y;
    assert buf == x + before + rest;
    ComposedParts(x, before, rest);
    ComposedParts(v, after, y);
    FindIs(buf, before, |x|);
    FindIs(rest, after, |v|);
    ExtractOf(buf, before, after, |x|, v);
  }

  /** In x + pat + y, pat occurs at |x|, with x before it and y after. */
  lemma ComposedParts(x: seq<byte>, pat: seq<byte>, y: seq<byte>)
    ensures OccursAt(x + pat + y, pat, |x|)
    ensures (x + pat + y)[..|x|] == x && (x + pat + y)[|x| + |pat|..] == y
  {
    assert (x + pat + y)[|x|..|x| + |pat|] == pat;
  }

  /** The extraction once both occurrences are known. */
  lemma ExtractOf(buf: seq<byte>, before: seq<byte>, after: seq<byte>, p: nat, v: seq<byte>)
    requires 0 !in buf
    requires Find(buf, before) == Some(p) && p + |before| <= |buf|
    requires Find(buf[p + |before|..], after) == Some(|v|) && buf[p + |before|..][..|v|] == v
    ensures ExtractString(buf, before, after) == Some(v)
  {
  }

  /** Conversely, a successful extraction splits the buffer into a prefix
      free of before, before, the value (free of after), after, and the
      rest. */
  lemma ExtractSplits(buf: seq<byte>, before: seq<byte>, after: seq<byte>, v: seq<byte>)
    requires 0 !in buf
    requires ExtractString(buf, before, after) == Some(v)
    ensures Find(buf, before).Some?
    ensures var p := Find(buf, before).value;
      buf == buf[..p] + before + v + after + buf[p + |before| + |v| + |after|..] &&
      AbsentBelow(buf, before, p) && AbsentBelow(buf[p + |before|..], after, |v|)
  {
    var p := Find(buf, before).value;
    var rest := buf[p + |before|..];
    var q := Find(rest, after).value;
    assert v == rest[..q] && |v| == q;
    assert AbsentBelow(rest, after, q);
    Reassemble(buf, before, p, after, q);
  }

  /** An occurrence of before, then one of after in what follows, cut a
      sequence into five pieces. */
  lemma Reassemble(s: seq<byte>, before: seq<byte>, p: nat, after: seq<byte>, q: nat)
    requires OccursAt(s, before, p) && OccursAt(s[p + |before|..], after, q)
    ensures s == s[..p] + before + s[p + |before|..][..q] + after + s[p + |before| + q + |after|..]
  {
    var rest := s[p + |before|..];
    SplitAt(s, before, p);
    SplitAt(rest, after, q);
    assert rest[q + |after|..] == s[p + |before| + q + |after|..];
  }

  /** An occurrence cuts a sequence into three pieces. */
  lemma SplitAt(s: seq<byte>, pat: seq<byte>, p: nat)
    requires OccursAt(s, pat, p)
    ensures s == s[..p] + pat + s[p + |pat|..]
  {
    assert s == s[..p] + s[p..p + |pat|] + s[p + |pat|..];
  }

  /** USER=" and the closing quote. */
  const USER_OPEN: seq<byte> := [85, 83, 69, 82, 61, 34]
  const QUOTE: seq<byte> := [34]

  /** FUNC= and the semicolon. */
  const FUNC_OPEN: seq<byte> := [70, 85, 78, 67, 61]
  const SEMICOLON: seq<byte> := [59]

  /** device_handler_extract_hostname: the text between USER=" and the
      next quote in the C string at buf; it never holds a quote. */
  function ExtractHostname(buf: seq<byte>): (r: Option<seq<byte>>)
    ensures r.Some? ==> 34 !in r.value && 0 !in r.value
  {
    match ExtractString(CStr(buf), USER_OPEN, QUOTE)
    case None => None
    case Some(v) =>
      QuoteFree(v);
      Some(v)
  }

  /** A value in which no quote starts holds no byte 34. */
  lemma QuoteFree(v: seq<byte>)
    requires forall j :: 0 <= j < |v| ==> !OccursAt(v + QUOTE, QUOTE, j)
    ensures 34 !in v
  {
    forall j | 0 <= j < |v|
      ensures v[j] != 34
    {
      assert !OccursAt(v + QUOTE, QUOTE, j);
      assert (v + QUOTE)[j..j + 1] == [v[j]];
    }
  }

  /** device_handler_extract_func: the scan function FUNC= names, and
      SCAN_FUNC_INVALID when there is no FUNC=...; or it names none. */
  function ExtractFunc(buf: seq<byte>): (r: int)
    ensures var name := ExtractString(CStr(buf), FUNC_OPEN, SEMICOLON);
      (r == Config.SCAN_FUNC_INVALID <==> name.None? || name.value !in Config.ScanFuncNames()) &&
      (r != Config.SCAN_FUNC_INVALID ==> 0 <= r < Config.MAX_FUNCS && Config.ScanFuncNames()[r] == name.value)
  {
    match ExtractString(CStr(buf), FUNC_OPEN, SEMICOLON)
    case None => Config.SCAN_FUNC_INVALID
    case Some(name) => Config.ScanFuncByName(name)
  }

  /** "foobar", "abc;" and ";abc" */
  const FOOBAR: seq<byte> := [102, 111, 111, 98, 97, 114]
  const ABC_SEMI: seq<byte> := [97, 98, 99, 59]
  const SEMI_ABC: seq<byte> := [59, 97, 98, 99]

  /** The hostname cases of device_handler_test.cpp, first: no USER=" at
      all. */
  lemma HostnameMissing()
    ensures ExtractHostname(FOOBAR) == None
  {
    assert FOOBAR[0..6][0] != USER_OPEN[0];
  }

  /** USER=" first occurs after "abc;". */
  lemma UserAfterAbc(rest: seq<byte>)
    ensures Find(ABC_SEMI + USER_OPEN + rest, USER_OPEN) == Some(4)
  {
    var buf := ABC_SEMI + USER_OPEN + rest;
    forall q | 0 <= q < 4
      ensures !OccursAt(buf, USER_OPEN, q)
    {
      assert buf[q + 1] != USER_OPEN[1];
    }
    assert buf[4..10] == USER_OPEN;
    FindIs(buf, USER_OPEN, 4);
  }

  /** A quote occurs only where the byte 34 is. */
  lemma QuoteAt(s: seq<byte>, q: nat)
    requires q < |s| && s[q] != 34
    ensures !OccursAt(s, QUOTE, q)
  {
    assert s[q..q + 1][0] == s[q];
  }

  /** Second: no closing quote after USER=" (as for "abc;USER=\"foobar"). */
  lemma HostnameUnclosed(v: seq<byte>)
    requires 34 !in v
    ensures ExtractHostname(ABC_SEMI + USER_OPEN + v) == None
  {
    var c := CStr(v);
    CStrAfter(ABC_SEMI + USER_OPEN, v);
    UserAfterAbc(c);
    assert (ABC_SEMI + USER_OPEN + c)[10..] == c;
    forall q | 0 <= q < |c|
      ensures !OccursAt(c, QUOTE, q)
    {
      QuoteAt(c, q);
    }
    assert AbsentBelow(c, QUOTE, |c| + 1);
  }

  /** Third: the value between USER=" and the quote (as for
      "abc;USER=\"foobar\";abc"). */
  lemma HostnameFound(v: seq<byte>, rest: seq<byte>)
    requires 34 !in v && 0 !in v
    ensures ExtractHostname(ABC_SEMI + USER_OPEN + v + QUOTE + rest) == Some(v)
  {
    UserAfterAbc([]);
    HostnameAfter(ABC_SEMI, v, rest);
  }

  /** The value between USER=" and the quote, once USER=" does not start
      inside the prefix x. What follows the quote does not matter, NUL or
      not. */
  lemma HostnameAfter(x: seq<byte>, v: seq<byte>, rest: seq<byte>)
    requires 0 !in x && 0 !in USER_OPEN && 34 !in v && 0 !in v
    requires AbsentBelow(x + USER_OPEN, USER_OPEN, |x|)
    ensures ExtractHostname(x + USER_OPEN + v + QUOTE + rest) == Some(v)
  {
    var c := CStr(rest);
    assert 0 !in x + USER_OPEN + v + QUOTE;
    CStrAfter(x + USER_OPEN + v + QUOTE, rest);
    var buf := x + USER_OPEN + v + QUOTE + c;
    forall q | 0 <= q < |x|
      ensures !OccursAt(buf, USER_OPEN, q)
    {
      assert buf[..|x| + |USER_OPEN|] == x + USER_OPEN;
      assert !OccursAt(x + USER_OPEN, USER_OPEN, q);
      assert buf[q..q + |USER_OPEN|] == (x + USER_OPEN)[q..q + |USER_OPEN|];
    }
    forall q | 0 <= q < |v|
      ensures !OccursAt(v + QUOTE + c, QUOTE, q)
    {
      QuoteAt(v + QUOTE + c, q);
    }
    ExtractComposed(x, USER_OPEN, v, QUOTE, c);
  }

  /** "mymachine", and what follows its quote in the test's button event:
      ;FUNC=FILE;HOST=192.168.1.2:54925;APPNUM=1;P1=0;P2=0;P3=0;P4=0;REGID=27164;SEQ=22; */
  const MYMACHINE: seq<byte> := [109, 121, 109, 97, 99, 104, 105, 110, 101]
  const EVENT_TAIL: seq<byte> := [
    59, 70, 85, 78, 67, 61, 70, 73, 76, 69, 59, 72, 79, 83, 84, 61, 49, 57, 50, 46, 49, 54, 56, 46,
    49, 46, 50, 58, 53, 52, 57, 50, 53, 59, 65, 80, 80, 78, 85, 77, 61, 49, 59, 80, 49, 61, 48, 59,
    80, 50, 61, 48, 59, 80, 51, 61, 48, 59, 80, 52, 61, 48, 59, 82, 69, 71, 73, 68, 61, 50, 55, 49,
    54, 52, 59, 83, 69, 81, 61, 50, 50, 59]

  /** USER=" does not start inside TYPE=BR;BUTTON=SCAN;. */
  lemma UserAfterType()
    ensures AbsentBelow(TYPE_BUTTON + USER_OPEN, USER_OPEN, |TYPE_BUTTON|)
  {
    var s := TYPE_BUTTON + USER_OPEN;
    forall q | 0 <= q < |TYPE_BUTTON|
      ensures !OccursAt(s, USER_OPEN, q)
    {
      assert s[q] != USER_OPEN[0] || s[q + 1] != USER_OPEN[1];
    }
  }

  /** The test's own values. */
  lemma HostnameExamples()
    ensures ExtractHostname(ABC_SEMI + USER_OPEN + FOOBAR) == None
    ensures ExtractHostname(ABC_SEMI + USER_OPEN + FOOBAR + QUOTE + SEMI_ABC) == Some(FOOBAR)
  {
    HostnameUnclosed(FOOBAR);
    HostnameFound(FOOBAR, SEMI_ABC);
  }

  /** The test's button event, as a scanner sends it. */
  lemma HostnameOfEvent()
    ensures ExtractHostname(TYPE_BUTTON + USER_OPEN + MYMACHINE + QUOTE + EVENT_TAIL) == Some(MYMACHINE)
  {
    UserAfterType();
    HostnameAfter(TYPE_BUTTON, MYMACHINE, EVENT_TAIL);
  }

  // ---------------------------------------------------------------------
  // The per-device schedule of device_handler_loop

  const REGISTER_DURATION_SEC: int := 360
  const KEEPALIVE_DURATION_SEC: int := 5
  const OFFLINE_RETRY_DURATION_SEC: int := 5

  /** The printer statuses under which a device counts as reachable:
      10001 normal, 10006 low ink, 40000 unknown but usable, 40038 empty ink. */
  predicate Reachable(status: int)
  {
    status == 10001 || status == 10006 || status == 40000 || status == 40038
  }

  /** The fields of struct device that the loop reads and writes. */
  datatype Schedule = Schedule(status: int, nextPing: int, nextRegister: int)

  /** One device's turn: its new fields, and whether register_scanner_driver
      is called. */
  datatype Turn = Turn(after: Schedule, register: bool)

  /** The body of the first TAILQ_FOREACH of device_handler_loop at time
      now, where probe is what snmp_get_printer_status would answer.
      difftime(now, t) > 0 is now > t. */
  function DeviceTurn(s: Schedule, now: int, probe: int): (r: Turn)
    ensures r.register ==> Reachable(r.after.status) && r.after.nextRegister == now + REGISTER_DURATION_SEC
    ensures r.after.nextPing >= s.nextPing && r.after.nextRegister >= s.nextRegister
  {
    var needPing := now > s.nextPing;
    var needRegister := now > s.nextRegister;
    var pinged :=
      if !needPing then s
      else if !Reachable(probe) && needRegister then Schedule(probe, now + OFFLINE_RETRY_DURATION_SEC, s.nextRegister)
      else Schedule(probe, now + KEEPALIVE_DURATION_SEC, s.nextRegister);
    if !Reachable(pinged.status) then Turn(pinged, false)
    else if needRegister then Turn(pinged.(nextRegister := now + REGISTER_DURATION_SEC), true)
    else Turn(pinged, false)
  }

  /** The status is queried only once the ping time has passed, and the
      next query is then due five seconds later whether or not the device
      answered: the offline retry interval equals the keepalive interval. */
  lemma PingSchedule(s: Schedule, now: int, probe: int)
    ensures var r := DeviceTurn(s, now, probe).after;
      (now > s.nextPing ==> r.status == probe && r.nextPing == now + KEEPALIVE_DURATION_SEC) &&
      (now <= s.nextPing ==> r.status == s.status && r.nextPing == s.nextPing)
  {
  }

  /** A device is registered exactly when it is reachable after the turn
      and its registration time has passed; the next one is then due 360
      seconds later, and otherwise the registration time stays put. */
  lemma RegisterSchedule(s: Schedule, now: int, probe: int)
    ensures var r := DeviceTurn(s, now, probe);
      (r.register <==> Reachable(r.after.status) && now > s.nextRegister) &&
      (r.register ==> r.after.nextRegister == now + REGISTER_DURATION_SEC) &&
      (!r.register ==> r.after.nextRegister == s.nextRegister)
  {
  }

  /** Two consecutive turns no more than 360 seconds apart never both
      register. */
  lemma RegisterSpacing(s: Schedule, t1: int, p1: int, t2: int, p2: int)
    requires t1 <= t2 <= t1 + REGISTER_DURATION_SEC
    ensures !(DeviceTurn(s, t1, p1).register && DeviceTurn(DeviceTurn(s, t1, p1).after, t2, p2).register)
  {
    RegisterSchedule(s, t1, p1);
    RegisterSchedule(DeviceTurn(s, t1, p1).after, t2, p2);
  }

  /** Two consecutive turns no more than five seconds apart query the
      status at most once. */
  lemma PingSpacing(s: Schedule, t1: int, p1: int, t2: int, p2: int)
    requires s.nextPing < t1 <= t2 <= t1 + KEEPALIVE_DURATION_SEC
    ensures DeviceTurn(DeviceTurn(s, t1, p1).after, t2, p2).after.status == p1
  {
    PingSchedule(s, t1, p1);
    PingSchedule(DeviceTurn(s, t1, p1).after, t2, p2);
  }

  /** struct device: what the loop keeps per device. */
  class Device {
    var status: int
    var nextPingTime: int
    var nextRegisterTime: int

    function Fields(): Schedule
      reads this
    {
      Schedule(status, nextPingTime, nextRegisterTime)
    }

    /** calloc: every field zero. */
    constructor()
      ensures Fields() == Schedule(0, 0, 0)
    {
      status, nextPingTime, nextRegisterTime := 0, 0, 0;
    }

    /** The device's turn in device_handler_loop at time now. */
    method Tick(now: int, probe: int) returns (register: bool)
      modifies this
      ensures DeviceTurn(old(Fields()), now, probe) == Turn(Fields(), register)
    {
      var needPing := now > nextPingTime;
      var needRegister := now > nextRegisterTime;
      register := false;
      if needPing {
        nextPingTime := now + KEEPALIVE_DURATION_SEC;
        status := probe;
        if !Reachable(status) {
          if needRegister {
            nextPingTime := now + OFFLINE_RETRY_DURATION_SEC;
          }
        }
      }
      if !Reachable(status) {
        return;
      }
      if needRegister {
        nextRegisterTime := now + REGISTER_DURATION_SEC;
        register := true;
      }
    }
  }

  /** A fresh device is pinged and, if reachable, registered on its first
      turn at any positive time. */
  method FirstTurn(now: int, probe: int) returns (register: bool)
    requires now > 0
    ensures register <==> Reachable(probe)
  {
    var d := new Device();
    register := d.Tick(now, probe);
  }

  // ---------------------------------------------------------------------
  // register_scanner_driver

  const MAX_FUNCS_PER_PACKET: nat := 4

  /** The pieces of the registration text around its five fields:
      TYPE=BR;BUTTON=SCAN;USER="host";FUNC=func;HOST=ip:54925;APPNUM=n;
      DURATION=360;BRID=password;CC=1; (BUTTON_HANDLER_PORT is 54925,
      DEVICE_REGISTER_DURATION_SEC 360). */
  const TYPE_BUTTON: seq<byte> := [84, 89, 80, 69, 61, 66, 82, 59, 66, 85, 84, 84, 79, 78, 61, 83, 67, 65, 78, 59]
  const HOST_OPEN: seq<byte> := [72, 79, 83, 84, 61]
  const PORT_APPNUM: seq<byte> := [58, 53, 52, 57, 50, 53, 59, 65, 80, 80, 78, 85, 77, 61]
  const DURATION_BRID: seq<byte> := [59, 68, 85, 82, 65, 84, 73, 79, 78, 61, 51, 54, 48, 59, 66, 82, 73, 68, 61]
  const CC_END: seq<byte> := [59, 67, 67, 61, 49, 59]

  /** Every item names one of the four scan functions, as config_init
      ensures; g_scan_func_str is indexed by it. */
  predicate FuncsValid(items: seq<Config.Item>)
  {
    forall k :: 0 <= k < |items| ==> 0 <= items[k].scanFunc < Config.MAX_FUNCS
  }

  /** The text snprintf formats for one item, with pass the text in
      pass_buf. */
  function Message(item: Config.Item, localIp: seq<byte>, pass: seq<byte>): (r: seq<byte>)
    requires 0 <= item.scanFunc < Config.MAX_FUNCS
  {
    TYPE_BUTTON + USER_OPEN + item.hostname + QUOTE + MessageRest(item, localIp, pass)
  }

  /** The registration text after the hostname's closing quote. */
  function MessageRest(item: Config.Item, localIp: seq<byte>, pass: seq<byte>): (r: seq<byte>)
    requires 0 <= item.scanFunc < Config.MAX_FUNCS
  {
    SEMICOLON +
    FUNC_OPEN + Config.ScanFuncNames()[item.scanFunc] + SEMICOLON +
    HOST_OPEN + localIp + PORT_APPNUM + FormatNat(item.appnum) +
    DURATION_BRID + pass + CC_END
  }

  /** extract_hostname reads the item's hostname back from its registration
      text, whenever the hostname holds no quote and no NUL. */
  lemma MessageHostname(item: Config.Item, localIp: seq<byte>, pass: seq<byte>)
    requires 0 <= item.scanFunc < Config.MAX_FUNCS
    requires 34 !in item.hostname && 0 !in item.hostname
    ensures ExtractHostname(Message(item, localIp, pass)) == Some(item.hostname)
  {
    var rest := MessageRest(item, localIp, pass);
    UserAfterType();
    HostnameAfter(TYPE_BUTTON, item.hostname, rest);
  }

  /** One call of snmp_register_scanner_driver: the enabled flag and the
      function strings it carries. */
  datatype Packet = Packet(enabled: bool, functions: seq<seq<byte>>)

  /** What register_scanner_driver leaves behind: its return code, the
      packets it sent, the items (appnum filled in) and g_appnum. */
  datatype Registration = Registration(rc: int, packets: seq<Packet>, items: seq<Config.Item>, appnum: nat)

  /** The loop's state between items: the text in pass_buf, the functions
      not sent yet, the packets sent, the items and g_appnum. */
  datatype Progress = Progress(
    pass: seq<byte>, pending: seq<seq<byte>>, packets: seq<Packet>, items: seq<Config.Item>, appnum: nat)

  /** The item with its appnum drawn from the counter when it is zero. */
  function Numbered(item: Config.Item, counter: nat): (r: Config.Item)
  {
    if item.appnum == 0 then item.(appnum := counter) else item
  }

  /** pass_buf after the item: re-encoded only for a four-byte password. */
  function PassAfter(item: Config.Item, pass: seq<byte>): (r: seq<byte>)
  {
    if item.password.Some? && |item.password.value| == 4 then EncodedPassword(item.password.value) else pass
  }

  /** Where the loop goes after one item: on to the next with a new state,
      or out of the function with its result. */
  datatype Step = Continue(next: Progress) | Stop(result: Registration)

  /** One pass of the loop over item k: encode the password, number the
      item, format its text (rc == 255 is the failure snprintf is checked
      for), and send a packet once four texts are pending; reply(n) is what
      the n-th call of snmp_register_scanner_driver returns. */
  function ItemStep(enabled: bool, localIp: seq<byte>, reply: nat -> int, k: nat, st: Progress): (r: Step)
    requires k < |st.items| && FuncsValid(st.items)
    ensures r.Continue? ==> |r.next.items| == |st.items| && FuncsValid(r.next.items)
  {
    var item := Numbered(st.items[k], st.appnum);
    var counter := if st.items[k].appnum == 0 then st.appnum + 1 else st.appnum;
    var pass := PassAfter(item, st.pass);
    var items := st.items[k := item];
    var msg := Message(item, localIp, pass);
    if |msg| == 255 then Stop(Registration(-1, st.packets, items, counter))
    else
      var pending := st.pending + [msg];
      if |pending| == MAX_FUNCS_PER_PACKET then
        var packets := st.packets + [Packet(enabled, pending)];
        if reply(|st.packets|) < 0 then Stop(Registration(reply(|st.packets|), packets, items, counter))
        else Continue(Progress(pass, [], packets, items, counter))
      else Continue(Progress(pass, pending, st.packets, items, counter))
  }

  /** After the last item: the pending texts, if any, go out in one last
      packet whose reply is the result. */
  function Finish(enabled: bool, reply: nat -> int, st: Progress): (r: Registration)
    ensures r.rc != 0 ==> |st.pending| > 0 && r.rc == reply(|st.packets|)
    ensures r.items == st.items && r.appnum == st.appnum
  {
    if |st.pending| > 0 then
      Registration(reply(|st.packets|), st.packets + [Packet(enabled, st.pending)], st.items, st.appnum)
    else Registration(0, st.packets, st.items, st.appnum)
  }

  /** Every pending text goes out with Finish, after the packets already sent. */
  lemma FinishSendsPending(enabled: bool, reply: nat -> int, st: Progress)
    ensures var r := Finish(enabled, reply, st);
      Count(r.packets) == Count(st.packets) + |st.pending| && r.packets[..|st.packets|] == st.packets
  {
    CountAppend(st.packets, Packet(enabled, st.pending));
    assert (st.packets + [Packet(enabled, st.pending)])[..|st.packets|] == st.packets;
  }

  /** ItemStep in terms of the item's text: where the loop goes once the
      item is numbered, pass_buf updated and the text formatted. */
  lemma ItemStepOf(enabled: bool, localIp: seq<byte>, reply: nat -> int, k: nat, st: Progress,
                   item: Config.Item, counter: nat, msg: seq<byte>)
    requires k < |st.items| && FuncsValid(st.items)
    requires item == Numbered(st.items[k], st.appnum)
    requires counter == if st.items[k].appnum == 0 then st.appnum + 1 else st.appnum
    requires msg == Message(item, localIp, PassAfter(item, st.pass))
    ensures var items := st.items[k := item];
      var pass := PassAfter(item, st.pass);
      var pending := st.pending + [msg];
      var packets := st.packets + [Packet(enabled, pending)];
      ItemStep(enabled, localIp, reply, k, st) ==
        if |msg| == 255 then Stop(Registration(-1, st.packets, items, counter))
        else if |pending| != MAX_FUNCS_PER_PACKET then Continue(Progress(pass, pending, st.packets, items, counter))
        else if reply(|st.packets|) < 0 then Stop(Registration(reply(|st.packets|), packets, items, counter))
        else Continue(Progress(pass, [], packets, items, counter))
  {
  }

  /** register_scanner_driver from item k on. */
  function RegisterFrom(enabled: bool, localIp: seq<byte>, reply: nat -> int, k: nat, st: Progress): (r: Registration)
    requires k <= |st.items| && FuncsValid(st.items)
    ensures |r.items| == |st.items| && FuncsValid(r.items) && r.appnum >= st.appnum
    decreases |st.items| - k
  {
    if k == |st.items| then Finish(enabled, reply, st)
    else match ItemStep(enabled, localIp, reply, k, st)
      case Stop(result) => result
      case Continue(next) => RegisterFrom(enabled, localIp, reply, k + 1, next)
  }

  /** One unfolding of RegisterFrom at an item that lets the loop go on. */
  lemma RegisterFromContinue(enabled: bool, localIp: seq<byte>, reply: nat -> int, k: nat, st: Progress, next: Progress)
    requires k < |st.items| && FuncsValid(st.items)
    requires ItemStep(enabled, localIp, reply, k, st) == Continue(next)
    ensures |next.items| == |st.items| && FuncsValid(next.items)
    ensures RegisterFrom(enabled, localIp, reply, k, st) == RegisterFrom(enabled, localIp, reply, k + 1, next)
  {
  }

  /** One unfolding of RegisterFrom at an item that returns from the loop. */
  lemma RegisterFromStop(enabled: bool, localIp: seq<byte>, reply: nat -> int, k: nat, st: Progress, result: Registration)
    requires k < |st.items| && FuncsValid(st.items)
    requires ItemStep(enabled, localIp, reply, k, st) == Stop(result)
    ensures RegisterFrom(enabled, localIp, reply, k, st) == result
  {
  }

  /** RegisterFrom once every item is done; pass_buf no longer matters. */
  lemma RegisterFromEnd(enabled: bool, localIp: seq<byte>, reply: nat -> int, st: Progress)
    requires FuncsValid(st.items)
    ensures RegisterFrom(enabled, localIp, reply, |st.items|, st) == Finish(enabled, reply, st.(pass := []))
  {
  }

  /** register_scanner_driver over a device's items, g_appnum being
      appnum on entry. */
  function Register(items: seq<Config.Item>, localIp: seq<byte>, enabled: bool, appnum: nat, reply: nat -> int): (r: Registration)
    requires FuncsValid(items)
    ensures |r.items| == |items| && FuncsValid(r.items) && r.appnum >= appnum
  {
    RegisterFrom(enabled, localIp, reply, 0, Progress([], [], [], items, appnum))
  }

  /** The number of function texts the packets carry. */
  function Count(packets: seq<Packet>): (n: nat)
  {
    if packets == [] then 0 else Count(packets[..|packets| - 1]) + |packets[|packets| - 1].functions|
  }

  lemma CountAppend(packets: seq<Packet>, p: Packet)
    ensures Count(packets + [p]) == Count(packets) + |p.functions|
  {
    assert (packets + [p])[..|packets|] == packets;
  }

  /** Packets sent from inside the loop: each carries the enabled flag and
      exactly DEVICE_SCAN_MAX_FUNCS_PER_PACKET texts. */
  predicate FullBatches(packets: seq<Packet>, enabled: bool)
  {
    forall j :: 0 <= j < |packets| ==>
      packets[j].enabled == enabled && |packets[j].functions| == MAX_FUNCS_PER_PACKET
  }

  /** All packets are full but the last, which carries one to four texts. */
  predicate Batched(packets: seq<Packet>, enabled: bool)
  {
    packets == [] ||
    (FullBatches(packets[..|packets| - 1], enabled) && packets[|packets| - 1].enabled == enabled &&
     1 <= |packets[|packets| - 1].functions| <= MAX_FUNCS_PER_PACKET)
  }

  lemma {:induction false} FullCount(packets: seq<Packet>, enabled: bool)
    requires FullBatches(packets, enabled)
    ensures Count(packets) == MAX_FUNCS_PER_PACKET * |packets|
  {
    if packets != [] {
      FullCount(packets[..|packets| - 1], enabled);
    }
  }

  /** Batched packets carrying n texts are ceil(n / 4) packets. */
  lemma PacketsNeeded(packets: seq<Packet>, enabled: bool)
    requires Batched(packets, enabled)
    ensures |packets| == (Count(packets) + MAX_FUNCS_PER_PACKET - 1) / MAX_FUNCS_PER_PACKET
  {
    if packets != [] {
      var init := packets[..|packets| - 1];
      FullCount(init, enabled);
      assert Count(packets) == 4 * |init| + |packets[|packets| - 1].functions|;
    }
  }

  /** A full packet joins full ones: still all full. */
  lemma FullAppend(packets: seq<Packet>, p: Packet, enabled: bool)
    requires FullBatches(packets, enabled)
    requires p.enabled == enabled && |p.functions| == MAX_FUNCS_PER_PACKET
    ensures FullBatches(packets + [p], enabled)
  {
  }

  /** Packets are the old ones and one more, full and with the enabled flag. */
  predicate OneFullMore(packets: seq<Packet>, earlier: seq<Packet>, enabled: bool)
  {
    |packets| == |earlier| + 1 && packets[..|earlier|] == earlier &&
    packets[|earlier|].enabled == enabled && |packets[|earlier|].functions| == MAX_FUNCS_PER_PACKET
  }

  /** What one item does to the packets, whatever its text: with fewer than
      four texts pending, the fourth sends a full packet; a stop is negative,
      either the -1 of a failed format or a refused packet. */
  lemma ItemShape(enabled: bool, localIp: seq<byte>, reply: nat -> int, k: nat, st: Progress)
    requires k < |st.items| && FuncsValid(st.items) && |st.pending| < MAX_FUNCS_PER_PACKET
    ensures var s := ItemStep(enabled, localIp, reply, k, st);
      var sent := |st.pending| + 1 == MAX_FUNCS_PER_PACKET;
      (s.Continue? && sent ==> s.next.pending == [] && OneFullMore(s.next.packets, st.packets, enabled)) &&
      (s.Continue? && !sent ==> s.next.packets == st.packets && |s.next.pending| == |st.pending| + 1) &&
      (s.Stop? ==>
        s.result.rc < 0 &&
        ((s.result.rc == -1 && s.result.packets == st.packets) ||
         (sent && s.result.rc == reply(|st.packets|) && OneFullMore(s.result.packets, st.packets, enabled))))
  {
    var item := Numbered(st.items[k], st.appnum);
    var counter := if st.items[k].appnum == 0 then st.appnum + 1 else st.appnum;
    var msg := Message(item, localIp, PassAfter(item, st.pass));
    ItemStepOf(enabled, localIp, reply, k, st, item, counter, msg);
    var packets := st.packets + [Packet(enabled, st.pending + [msg])];
    assert packets[..|st.packets|] == st.packets;
  }

  /** Full packets are batched. */
  lemma FullBatched(packets: seq<Packet>, enabled: bool)
    requires FullBatches(packets, enabled)
    ensures Batched(packets, enabled)
  {
    if packets != [] {
      var init := packets[..|packets| - 1];
      assert forall j :: 0 <= j < |init| ==> init[j] == packets[j];
    }
  }

  /** Full packets stay full when one full packet more is sent, or none. */
  lemma FullAfter(packets: seq<Packet>, earlier: seq<Packet>, enabled: bool)
    requires FullBatches(earlier, enabled)
    requires packets == earlier || OneFullMore(packets, earlier, enabled)
    ensures FullBatches(packets, enabled) && Batched(packets, enabled)
    ensures packets != earlier ==> Count(packets) == Count(earlier) + MAX_FUNCS_PER_PACKET
  {
    if packets != earlier {
      var p := packets[|earlier|];
      assert packets == earlier + [p];
      CountAppend(earlier, p);
      FullAppend(earlier, p, enabled);
    }
    FullBatched(packets, enabled);
  }

  /** What holds between items k - 1 and k: every packet so far full,
      fewer than four texts pending, and one text per item done. */
  predicate BatchInv(st: Progress, k: nat, enabled: bool)
  {
    |st.pending| < MAX_FUNCS_PER_PACKET && FullBatches(st.packets, enabled) &&
    Count(st.packets) + |st.pending| == k
  }

  /** What the loop promises about its result over n items: the packets
      come out batched, and unless the result is negative every item's text
      was sent; when every packet is acknowledged, a negative result is the
      -1 of a failed format and some items were not sent. */
  ghost predicate BatchPost(r: Registration, n: nat, enabled: bool, reply: nat -> int)
  {
    Batched(r.packets, enabled) && Count(r.packets) <= n &&
    (r.rc < 0 || Count(r.packets) == n) &&
    ((forall m :: reply(m) >= 0) && r.rc < 0 ==> r.rc == -1 && Count(r.packets) < n)
  }

  /** After the last item the pending texts go out and the promise holds. */
  lemma BatchesEnd(enabled: bool, reply: nat -> int, st: Progress)
    requires BatchInv(st, Count(st.packets) + |st.pending|, enabled)
    ensures BatchPost(Finish(enabled, reply, st), Count(st.packets) + |st.pending|, enabled, reply)
  {
    FinishSendsPending(enabled, reply, st);
    if |st.pending| > 0 {
      var p := Packet(enabled, st.pending);
      assert (st.packets + [p])[..|st.packets|] == st.packets;
    } else {
      FullAfter(st.packets, st.packets, enabled);
    }
  }

  /** One item keeps the invariant, or stops the loop with the promise kept. */
  lemma BatchesStep(enabled: bool, localIp: seq<byte>, reply: nat -> int, k: nat, st: Progress)
    requires k < |st.items| && FuncsValid(st.items) && BatchInv(st, k, enabled)
    ensures var s := ItemStep(enabled, localIp, reply, k, st);
      (s.Stop? ==> BatchPost(s.result, |st.items|, enabled, reply)) &&
      (s.Continue? ==> BatchInv(s.next, k + 1, enabled))
  {
    ItemShape(enabled, localIp, reply, k, st);
    var s := ItemStep(enabled, localIp, reply, k, st);
    match s {
      case Stop(result) => FullAfter(result.packets, st.packets, enabled);
      case Continue(next) => FullAfter(next.packets, st.packets, enabled);
    }
  }

  /** The loop from item k on keeps its promise. */
  lemma {:induction false} BatchesFrom(enabled: bool, localIp: seq<byte>, reply: nat -> int, k: nat, st: Progress)
    requires k <= |st.items| && FuncsValid(st.items) && BatchInv(st, k, enabled)
    ensures BatchPost(RegisterFrom(enabled, localIp, reply, k, st), |st.items|, enabled, reply)
    decreases |st.items| - k
  {
    if k == |st.items| {
      RegisterFromEnd(enabled, localIp, reply, st);
      BatchesEnd(enabled, reply, st.(pass := []));
    } else {
      BatchesStep(enabled, localIp, reply, k, st);
      match ItemStep(enabled, localIp, reply, k, st) {
        case Stop(result) =>
          RegisterFromStop(enabled, localIp, reply, k, st, result);
        case Continue(next) =>
          RegisterFromContinue(enabled, localIp, reply, k, st, next);
          BatchesFrom(enabled, localIp, reply, k + 1, next);
      }
    }
  }

  /** register_scanner_driver sends the texts in packets of four, the last
      one with the remaining one to four, all with the enabled flag; unless
      it returns a negative code, every item's text went out, in
      ceil(items / 4) packets. */
  lemma RegisterBatches(items: seq<Config.Item>, localIp: seq<byte>, enabled: bool, appnum: nat, reply: nat -> int)
    requires FuncsValid(items)
    ensures var r := Register(items, localIp, enabled, appnum, reply);
      Batched(r.packets, enabled) &&
      (r.rc >= 0 ==> Count(r.packets) == |items| && |r.packets| == (|items| + 3) / 4)
  {
    var r := Register(items, localIp, enabled, appnum, reply);
    BatchesFrom(enabled, localIp, reply, 0, Progress([], [], [], items, appnum));
    PacketsNeeded(r.packets, enabled);
  }

  /** With every packet acknowledged, register_scanner_driver fails only
      with the -1 of a text of 255 characters, before every text was sent. */
  lemma RegisterAcknowledged(items: seq<Config.Item>, localIp: seq<byte>, enabled: bool, appnum: nat, reply: nat -> int)
    requires FuncsValid(items) && forall n :: reply(n) >= 0
    ensures var r := Register(items, localIp, enabled, appnum, reply);
      (r.rc >= 0 <==> Count(r.packets) == |items|) && (r.rc < 0 ==> r.rc == -1)
  {
    BatchesFrom(enabled, localIp, reply, 0, Progress([], [], [], items, appnum));
  }

  /** The items after register_scanner_driver against the items before:
      each is unchanged, or had appnum 0 and now carries a number drawn
      from [lo, hi); numbers are drawn in item order, so an item numbered
      here comes after every earlier zero-appnum item, with a larger number. */
  predicate Renumbered(orig: seq<Config.Item>, cur: seq<Config.Item>, lo: nat, hi: nat)
  {
    |cur| == |orig| &&
    (forall j :: 0 <= j < |orig| ==>
      cur[j] == orig[j] ||
      (orig[j].appnum == 0 && cur[j] == orig[j].(appnum := cur[j].appnum) && lo <= cur[j].appnum < hi)) &&
    (forall i, j :: 0 <= i < j < |orig| && orig[i].appnum == 0 && cur[j] != orig[j] ==>
      cur[i] != orig[i] && cur[i].appnum < cur[j].appnum)
  }

  /** What one item does to the items and g_appnum, whatever happens next. */
  lemma ItemNumbering(enabled: bool, localIp: seq<byte>, reply: nat -> int, k: nat, st: Progress)
    requires k < |st.items| && FuncsValid(st.items)
    ensures var s := ItemStep(enabled, localIp, reply, k, st);
      var items := st.items[k := Numbered(st.items[k], st.appnum)];
      var counter := if st.items[k].appnum == 0 then st.appnum + 1 else st.appnum;
      (s.Continue? ==> s.next.items == items && s.next.appnum == counter) &&
      (s.Stop? ==> s.result.items == items && s.result.appnum == counter)
  {
    var item := Numbered(st.items[k], st.appnum);
    var counter := if st.items[k].appnum == 0 then st.appnum + 1 else st.appnum;
    ItemStepOf(enabled, localIp, reply, k, st, item, counter, Message(item, localIp, PassAfter(item, st.pass)));
  }

  /** The items and g_appnum once the first m items were given numbers
      from counter on. */
  function Numbering(items: seq<Config.Item>, m: nat, counter: nat): (r: (seq<Config.Item>, nat))
    requires m <= |items|
    ensures |r.0| == |items| && r.1 >= counter
    ensures forall j :: m <= j < |items| ==> r.0[j] == items[j]
  {
    if m == 0 then (items, counter)
    else
      var (cur, c) := Numbering(items, m - 1, counter);
      (cur[m - 1 := Numbered(cur[m - 1], c)], if cur[m - 1].appnum == 0 then c + 1 else c)
  }

  /** One more item numbered. */
  lemma NumberingNext(items: seq<Config.Item>, k: nat, counter: nat, cur: seq<Config.Item>, c: nat)
    returns (now: (seq<Config.Item>, nat))
    requires k < |items| && (cur, c) == Numbering(items, k, counter)
    ensures now == Numbering(items, k + 1, counter)
    ensures now == (cur[k := Numbered(cur[k], c)], if cur[k].appnum == 0 then c + 1 else c)
  {
    now := Numbering(items, k + 1, counter);
  }

  /** Numbering item k keeps the items renumbered and every zero-appnum
      item up to k numbered. */
  lemma NumberStep(orig: seq<Config.Item>, cur: seq<Config.Item>, k: nat, counter: nat, lo: nat,
                    next: seq<Config.Item>, hi: nat)
    requires k < |orig| && 1 <= lo <= counter
    requires Renumbered(orig, cur, lo, counter)
    requires forall j :: k <= j < |orig| ==> cur[j] == orig[j]
    requires forall j :: 0 <= j < k && orig[j].appnum == 0 ==> cur[j] != orig[j]
    requires next == cur[k := Numbered(cur[k], counter)]
    requires hi == if cur[k].appnum == 0 then counter + 1 else counter
    ensures Renumbered(orig, next, lo, hi)
    ensures forall j :: 0 <= j < k + 1 && orig[j].appnum == 0 ==> next[j] != orig[j]
  {
    forall i, j | 0 <= i < j < |orig| && orig[i].appnum == 0 && next[j] != orig[j]
      ensures next[i] != orig[i] && next[i].appnum < next[j].appnum
    {
      if j == k {
        assert cur[i] != orig[i];
      }
    }
  }

  /** Numbering a prefix, g_appnum starting at 1 or above, renumbers the
      items: the drawn numbers are non-zero, so every zero-appnum item of
      the prefix changed. */
  lemma {:induction false} NumberingRenumbers(orig: seq<Config.Item>, m: nat, lo: nat)
    requires m <= |orig| && lo >= 1
    ensures Renumbered(orig, Numbering(orig, m, lo).0, lo, Numbering(orig, m, lo).1)
    ensures forall j :: 0 <= j < m && orig[j].appnum == 0 ==> Numbering(orig, m, lo).0[j] != orig[j]
  {
    if m == 0 {
      assert Numbering(orig, 0, lo) == (orig, lo);
    } else {
      NumberingRenumbers(orig, m - 1, lo);
      var prev := Numbering(orig, m - 1, lo);
      var now := Numbering(orig, m, lo);
      assert now == (prev.0[m - 1 := Numbered(prev.0[m - 1], prev.1)], if prev.0[m - 1].appnum == 0 then prev.1 + 1 else prev.1);
      NumberStep(orig, prev.0, m - 1, prev.1, lo, now.0, now.1);
    }
  }

  /** The loop from item k on, the first k items numbered: it stops with
      some prefix numbered. */
  lemma {:induction false} NumberingFrom(enabled: bool, localIp: seq<byte>, reply: nat -> int, k: nat, st: Progress,
                                         orig: seq<Config.Item>, lo: nat) returns (m: nat)
    requires k <= |orig| && FuncsValid(st.items)
    requires (st.items, st.appnum) == Numbering(orig, k, lo)
    ensures var r := RegisterFrom(enabled, localIp, reply, k, st);
      k <= m <= |orig| && (r.items, r.appnum) == Numbering(orig, m, lo)
    decreases |st.items| - k
  {
    if k == |st.items| {
      RegisterFromEnd(enabled, localIp, reply, st);
      var r := Finish(enabled, reply, st.(pass := []));
      assert r.items == st.items && r.appnum == st.appnum;
      m := k;
    } else {
      ItemNumbering(enabled, localIp, reply, k, st);
      var now := NumberingNext(orig, k, lo, st.items, st.appnum);
      match ItemStep(enabled, localIp, reply, k, st) {
        case Stop(result) =>
          RegisterFromStop(enabled, localIp, reply, k, st, result);
          assert (result.items, result.appnum) == now;
          m := k + 1;
        case Continue(next) =>
          RegisterFromContinue(enabled, localIp, reply, k, st, next);
          assert (next.items, next.appnum) == now;
          m := NumberingFrom(enabled, localIp, reply, k + 1, next, orig, lo);
      }
    }
  }

  /** register_scanner_driver, g_appnum starting at 1 or above as
      device_handler_init leaves it: items with an appnum keep it, items
      without one get g_appnum's successive values in item order, and
      g_appnum never goes down. */
  lemma RegisterNumbering(items: seq<Config.Item>, localIp: seq<byte>, enabled: bool, appnum: nat, reply: nat -> int)
    requires FuncsValid(items) && appnum >= 1
    ensures var r := Register(items, localIp, enabled, appnum, reply);
      appnum <= r.appnum && Renumbered(items, r.items, appnum, r.appnum)
  {
    var m := NumberingFrom(enabled, localIp, reply, 0, Progress([], [], [], items, appnum), items, appnum);
    NumberingRenumbers(items, m, appnum);
  }

  /** The second of two items, with no password of its own, after a first
      whose text is pending: its text takes the BRID left in pass_buf and
      goes out with the first in the last packet. */
  lemma SecondItemCarries(enabled: bool, localIp: seq<byte>, reply: nat -> int, st: Progress, first: seq<byte>)
    requires |st.items| == 2 && FuncsValid(st.items) && st.items[1].password.None?
    requires st.pending == [first] && st.packets == []
    ensures var r := RegisterFrom(enabled, localIp, reply, 1, st);
      var second := Message(Numbered(st.items[1], st.appnum), localIp, st.pass);
      (r.packets == [] ==> r.rc == -1) &&
      (r.packets != [] ==> r.packets == [Packet(enabled, [first, second])])
  {
    var item := Numbered(st.items[1], st.appnum);
    var c := if st.items[1].appnum == 0 then st.appnum + 1 else st.appnum;
    var msg := Message(item, localIp, st.pass);
    ItemStepOf(enabled, localIp, reply, 1, st, item, c, msg);
    var items := st.items[1 := item];
    if |msg| != 255 {
      var next := Progress(st.pass, [first, msg], [], items, c);
      RegisterFromContinue(enabled, localIp, reply, 1, st, next);
      RegisterFromEnd(enabled, localIp, reply, next);
    } else {
      RegisterFromStop(enabled, localIp, reply, 1, st, Registration(-1, [], items, c));
    }
  }

  /** pass_buf is not cleared between items: an item without a four-byte
      password is announced with the BRID of the item before it. Of two
      items, the first with a password and the second without, both texts
      carry the first one's encoded password, in one packet. */
  lemma PasswordCarriesOver(a: Config.Item, b: Config.Item, localIp: seq<byte>, enabled: bool, appnum: nat, reply: nat -> int)
    requires 0 <= a.scanFunc < Config.MAX_FUNCS && 0 <= b.scanFunc < Config.MAX_FUNCS
    requires a.password.Some? && |a.password.value| == 4 && b.password.None?
    ensures FuncsValid([a, b])
    ensures var r := Register([a, b], localIp, enabled, appnum, reply);
      var brid := EncodedPassword(a.password.value);
      var first := Numbered(a, appnum);
      var second := Numbered(b, if a.appnum == 0 then appnum + 1 else appnum);
      (r.packets == [] ==> r.rc == -1) &&
      (r.packets != [] ==>
        r.packets == [Packet(enabled, [Message(first, localIp, brid), Message(second, localIp, brid)])])
  {
    var brid := EncodedPassword(a.password.value);
    var items := [a, b];
    assert items[0] == a && items[1] == b;
    assert FuncsValid(items);
    var st0 := Progress([], [], [], items, appnum);
    var first := Numbered(a, appnum);
    var c1 := if a.appnum == 0 then appnum + 1 else appnum;
    var m0 := Message(first, localIp, brid);
    ItemStepOf(enabled, localIp, reply, 0, st0, first, c1, m0);
    if |m0| != 255 {
      var st1 := Progress(brid, [m0], [], items[0 := first], c1);
      RegisterFromContinue(enabled, localIp, reply, 0, st0, st1);
      SecondItemCarries(enabled, localIp, reply, st1, m0);
    } else {
      RegisterFromStop(enabled, localIp, reply, 0, st0, Registration(-1, [], items[0 := first], c1));
    }
  }

  /** The encoded password is eight non-zero digits, so the C string in
      pass_buf is exactly those digits. */
  lemma PassBufText(pass: seq<byte>, buf: seq<byte>)
    requires |pass| == 4 && |buf| == 9
    requires buf[..8] == EncodedPassword(pass) && buf[8] == 0
    ensures CStr(buf) == EncodedPassword(pass)
  {
    HexDigits(Keyed(pass));
    assert buf == EncodedPassword(pass) + [0] + [];
    CStrOfTerminated(EncodedPassword(pass), []);
  }

  /** The first half of the loop body: encode a four-byte password into
      pass_buf, give the item a number if it has none, and format its text. */
  method FormatItem(item: Config.Item, counter: nat, localIp: seq<byte>, passBuf: array<byte>)
    returns (numbered: Config.Item, next: nat, msg: seq<byte>)
    requires passBuf.Length == 9 && 0 <= item.scanFunc < Config.MAX_FUNCS
    modifies passBuf
    ensures numbered == Numbered(item, counter)
    ensures next == if item.appnum == 0 then counter + 1 else counter
    ensures CStr(passBuf[..]) == PassAfter(numbered, old(CStr(passBuf[..])))
    ensures msg == Message(numbered, localIp, CStr(passBuf[..]))
  {
    if item.password.Some? && |item.password.value| == 4 {
      var password := item.password.value;
      var _ := EncodePassword(password, passBuf);
      assert password[..4] == password;
      PassBufText(password, passBuf[..]);
    }
    numbered, next := item, counter;
    if item.appnum == 0 {
      numbered := item.(appnum := counter);
      next := counter + 1;
    }
    msg := Message(numbered, localIp, CStr(passBuf[..]));
  }

  /** One pass of the loop body over item k: Some(result) when the
      function returns from inside the loop, otherwise the loop variables
      for the next item. */
  method RegisterItem(enabled: bool, localIp: seq<byte>, reply: nat -> int, k: nat, passBuf: array<byte>,
                      pending: seq<seq<byte>>, packets: seq<Packet>, items: seq<Config.Item>, counter: nat)
    returns (stop: Option<Registration>, pending': seq<seq<byte>>, packets': seq<Packet>, items': seq<Config.Item>, counter': nat)
    requires passBuf.Length == 9 && k < |items| && FuncsValid(items)
    modifies passBuf
    ensures ItemStep(enabled, localIp, reply, k, Progress(old(CStr(passBuf[..])), pending, packets, items, counter)) ==
      if stop.Some? then Stop(stop.value) else Continue(Progress(CStr(passBuf[..]), pending', packets', items', counter'))
  {
    ghost var st := Progress(CStr(passBuf[..]), pending, packets, items, counter);
    var item, next, msg := FormatItem(items[k], counter, localIp, passBuf);
    ItemStepOf(enabled, localIp, reply, k, st, item, next, msg);
    items' := items[k := item];
    counter' := next;
    pending', packets' := pending, packets;
    if |msg| == 255 {
      return Some(Registration(-1, packets, items', counter')), pending', packets', items', counter';
    }
    pending' := pending + [msg];
    stop := None;
    if |pending'| == MAX_FUNCS_PER_PACKET {
      packets' := packets + [Packet(enabled, pending')];
      var rc := reply(|packets|);
      if rc < 0 {
        stop := Some(Registration(rc, packets', items', counter'));
      }
      pending' := [];
    }
  }

  /** After the loop: the texts still pending go out in one last packet. */
  method SendRest(enabled: bool, reply: nat -> int, pending: seq<seq<byte>>, packets: seq<Packet>,
                  items: seq<Config.Item>, counter: nat) returns (r: Registration)
    ensures r == Finish(enabled, reply, Progress([], pending, packets, items, counter))
  {
    if |pending| > 0 {
      return Registration(reply(|packets|), packets + [Packet(enabled, pending)], items, counter);
    }
    r := Registration(0, packets, items, counter);
  }

  /** The zeroed nine-byte pass_buf: it holds the empty C string. */
  method NewPassBuf() returns (buf: array<byte>)
    ensures fresh(buf) && buf.Length == 9 && CStr(buf[..]) == []
  {
    buf := new byte[9](_ => 0);
    assert buf[0] == 0;
  }

  /** The loop of register_scanner_driver; pass_buf is a nine-byte buffer
      that only encode_password writes. */
  method RegisterScannerDriver(items: seq<Config.Item>, localIp: seq<byte>, enabled: bool, appnum: nat, reply: nat -> int)
    returns (r: Registration)
    requires FuncsValid(items)
    ensures r == Register(items, localIp, enabled, appnum, reply)
  {
    var passBuf := NewPassBuf();
    var pending: seq<seq<byte>> := [];
    var packets: seq<Packet> := [];
    var current := items;
    var counter := appnum;
    var k: nat := 0;
    ghost var goal := Register(items, localIp, enabled, appnum, reply);
    while k < |current|
      invariant k <= |current| == |items| && FuncsValid(current) && passBuf.Length == 9
      invariant RegisterFrom(enabled, localIp, reply, k, Progress(CStr(passBuf[..]), pending, packets, current, counter)) == goal
    {
      ghost var st := Progress(CStr(passBuf[..]), pending, packets, current, counter);
      var stop;
      stop, pending, packets, current, counter := RegisterItem(enabled, localIp, reply, k, passBuf, pending, packets, current, counter);
      if stop.Some? {
        RegisterFromStop(enabled, localIp, reply, k, st, stop.value);
        return stop.value;
      }
      RegisterFromContinue(enabled, localIp, reply, k, st, Progress(CStr(passBuf[..]), pending, packets, current, counter));
      k := k + 1;
    }
    RegisterFromEnd(enabled, localIp, reply, Progress(CStr(passBuf[..]), pending, packets, current, counter));
    r := SendRest(enabled, reply, pending, packets, current, counter);
  }
}
