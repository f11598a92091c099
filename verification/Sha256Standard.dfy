/** SHA-256 as FIPS 180-4 defines it.

    Messages are whole bytes; section numbers are those of the standard.
 */
module Sha256Standard {

  const MODULUS := 0x1_0000_0000

  /** A word as an unsigned number. */
  function Value(b: bv32): int {
    b as int
  }

  /** Section 3.2: addition modulo 2^32. */
  function Add(x: bv32, y: bv32): bv32 {
    ((Value(x) + Value(y)) % MODULUS) as bv32
  }

  // Section 3.2: shifts and rotation.
  function ShL(n: nat, x: bv32): bv32
    requires n < 32
  {
    x << n
  }

  function ShR(n: nat, x: bv32): bv32
    requires n < 32
  {
    x >> n
  }

  function RotR(n: nat, x: bv32): bv32
    requires 0 < n < 32
  {
    ShR(n, x) | ShL(32 - n, x)
  }

  // Section 4.1.2
  function Ch(x: bv32, y: bv32, z: bv32): bv32 { (x & y) ^ (!x & z) }
  function Maj(x: bv32, y: bv32, z: bv32): bv32 { (x & y) ^ (x & z) ^ (y & z) }
  function BigSigma0(x: bv32): bv32 { RotR(2, x) ^ RotR(13, x) ^ RotR(22, x) }
  function BigSigma1(x: bv32): bv32 { RotR(6, x) ^ RotR(11, x) ^ RotR(25, x) }
  function SmallSigma0(x: bv32): bv32 { RotR(7, x) ^ RotR(18, x) ^ ShR(3, x) }
  function SmallSigma1(x: bv32): bv32 { RotR(17, x) ^ RotR(19, x) ^ ShR(10, x) }

  // Section 4.2.2
  const K: seq<bv32> :=
    [0x428a2f98, 0x71374491, 0xb5c0fbcf, 0xe9b5dba5, 0x3956c25b, 0x59f111f1, 0x923f82a4, 0xab1c5ed5]
    + [0xd807aa98, 0x12835b01, 0x243185be, 0x550c7dc3, 0x72be5d74, 0x80deb1fe, 0x9bdc06a7, 0xc19bf174]
    + [0xe49b69c1, 0xefbe4786, 0x0fc19dc6, 0x240ca1cc, 0x2de92c6f, 0x4a7484aa, 0x5cb0a9dc, 0x76f988da]
    + [0x983e5152, 0xa831c66d, 0xb00327c8, 0xbf597fc7, 0xc6e00bf3, 0xd5a79147, 0x06ca6351, 0x14292967]
    + [0x27b70a85, 0x2e1b2138, 0x4d2c6dfc, 0x53380d13, 0x650a7354, 0x766a0abb, 0x81c2c92e, 0x92722c85]
    + [0xa2bfe8a1, 0xa81a664b, 0xc24b8b70, 0xc76c51a3, 0xd192e819, 0xd6990624, 0xf40e3585, 0x106aa070]
    + [0x19a4c116, 0x1e376c08, 0x2748774c, 0x34b0bcb5, 0x391c0cb3, 0x4ed8aa4a, 0x5b9cca4f, 0x682e6ff3]
    + [0x748f82ee, 0x78a5636f, 0x84c87814, 0x8cc70208, 0x90befffa, 0xa4506ceb, 0xbef9a3f7, 0xc67178f2]

  datatype Registers = Registers(a: bv32, b: bv32, c: bv32, d: bv32, e: bv32, f: bv32, g: bv32, h: bv32)

  // Section 5.3.3
  const INITIAL := Registers(0x6a09e667, 0xbb67ae85, 0x3c6ef372, 0xa54ff53a,
                             0x510e527f, 0x9b05688c, 0x1f83d9ab, 0x5be0cd19)

  /** Section 6.2.2, step 1: the message schedule of a sixteen-word block. */
  function Schedule(block: seq<bv32>, t: nat): bv32
    requires |block| == 16
  {
    if t < 16 then block[t]
    else Add(Add(Add(SmallSigma1(Schedule(block, t - 2)), Schedule(block, t - 7)),
                 SmallSigma0(Schedule(block, t - 15))), Schedule(block, t - 16))
  }

  /** Section 6.2.2, step 3: one round. */
  function Round(r: Registers, k: bv32, w: bv32): Registers {
    var t1 := Add(Add(Add(Add(r.h, BigSigma1(r.e)), Ch(r.e, r.f, r.g)), k), w);
    var t2 := Add(BigSigma0(r.a), Maj(r.a, r.b, r.c));
    Registers(Add(t1, t2), r.a, r.b, r.c, Add(r.d, t1), r.e, r.f, r.g)
  }

  function Rounds(start: Registers, block: seq<bv32>, t: nat): Registers
    requires |block| == 16 && t <= 64
  {
    if t == 0 then start else Round(Rounds(start, block, t - 1), K[t - 1], Schedule(block, t - 1))
  }

  /** Section 6.2.2, step 4. */
  function Sum(x: Registers, y: Registers): Registers {
    Registers(Add(x.a, y.a), Add(x.b, y.b), Add(x.c, y.c), Add(x.d, y.d),
              Add(x.e, y.e), Add(x.f, y.f), Add(x.g, y.g), Add(x.h, y.h))
  }

  /** The hash value after the first n blocks of a padded message. */
  function HashValue(words: seq<bv32>, n: nat): Registers
    requires 16 * n <= |words|
  {
    if n == 0 then INITIAL
    else
      var before := HashValue(words, n - 1);
      Sum(Rounds(before, words[16 * (n - 1)..16 * n], 64), before)
  }

  // --------------------------------------------------- section 5.1.1: the padding

  /** The number of zero bytes: the fewest that leave room for the length in a whole block. */
  function ZeroBytes(length: nat): (k: nat)
    ensures k < 64 && (length + 1 + k) % 64 == 56
  {
    (119 - length % 64) % 64
  }

  /** The message length in bits as a 64-bit block. */
  function LengthBlock(bits: nat): seq<bv8>
    requires bits < 0x1_0000_0000_0000_0000
  {
    var l := bits as bv64;
    [(l >> 56) as bv8, ((l >> 48) & 0xff) as bv8, ((l >> 40) & 0xff) as bv8, ((l >> 32) & 0xff) as bv8,
     ((l >> 24) & 0xff) as bv8, ((l >> 16) & 0xff) as bv8, ((l >> 8) & 0xff) as bv8, (l & 0xff) as bv8]
  }

  function Pad(message: seq<bv8>): seq<bv8>
    requires 8 * |message| < 0x1_0000_0000_0000_0000
  {
    message + [0x80] + seq(ZeroBytes(|message|), _ => 0) + LengthBlock(8 * |message|)
  }

  /** Section 5.2.1: a padded message as 32-bit words, most significant byte first. */
  function WordAt(bytes: seq<bv8>, j: nat): bv32
    requires 4 * j + 4 <= |bytes|
  {
    Join(bytes[4 * j], bytes[4 * j + 1], bytes[4 * j + 2], bytes[4 * j + 3])
  }

  function Join(a: bv8, b: bv8, c: bv8, d: bv8): bv32 {
    ((a as bv32) << 24) | ((b as bv32) << 16) | ((c as bv32) << 8) | d as bv32
  }

  function Words(bytes: seq<bv8>): (words: seq<bv32>)
    requires |bytes| % 4 == 0
    ensures |words| == |bytes| / 4
  {
    seq(|bytes| / 4, j requires 0 <= j < |bytes| / 4 => WordAt(bytes, j))
  }

  /** The number of 512-bit blocks a message of m bytes takes once padded. */
  function PaddedBlocks(m: nat): nat {
    (8 * m + 64) / 512 + 1
  }

  lemma BlocksNeeded(m: nat)
    ensures m + 1 + ZeroBytes(m) + 8 == 64 * PaddedBlocks(m)
  {
    var q, r := m / 64, m % 64;
    assert 8 * m + 64 == 512 * q + (8 * r + 64);
    if r <= 55 {
      assert ZeroBytes(m) == 55 - r;
      assert (8 * m + 64) / 512 == q;
    } else {
      assert ZeroBytes(m) == 119 - r;
      assert (8 * m + 64) / 512 == q + 1;
    }
  }

  lemma PadIsWholeBlocks(message: seq<bv8>)
    requires 8 * |message| < 0x1_0000_0000_0000_0000
    ensures |Pad(message)| == 64 * PaddedBlocks(|message|)
    ensures |Pad(message)| % 4 == 0 && |Pad(message)| / 4 == 16 * PaddedBlocks(|message|)
  {
    hide Pad, ZeroBytes, PaddedBlocks;
    PadLength(message);
    BlocksNeeded(|message|);
    SixtyFour(PaddedBlocks(|message|));
  }

  lemma PadLength(message: seq<bv8>)
    requires 8 * |message| < 0x1_0000_0000_0000_0000
    ensures |Pad(message)| == |message| + 1 + ZeroBytes(|message|) + 8
  {
    hide LengthBlock, ZeroBytes;
    LengthBlockIsEight(8 * |message|);
  }

  lemma SixtyFour(n: nat)
    ensures 64 * n % 4 == 0 && 64 * n / 4 == 16 * n
  {
  }

  lemma LengthBlockIsEight(bits: nat)
    requires bits < 0x1_0000_0000_0000_0000
    ensures |LengthBlock(bits)| == 8
  {
  }

  // ------------------------------------------------------------- the digest as text

  const HEX := "0123456789abcdef"

  /** The low n nibbles of a word, most significant first. */
  function HexNibbles(w: bv32, n: nat): string {
    if n == 0 then "" else HexNibbles(HighPart(w), n - 1) + [HEX[LowNibble(w)]]
  }

  function HighPart(w: bv32): bv32 {
    w >> 4
  }

  function LowPart(w: bv32): bv32 {
    w & 0xf
  }

  function LowNibble(w: bv32): (n: nat)
    ensures n < 16
  {
    Value(LowPart(w))
  }

  function HexWord(w: bv32): string {
    HexNibbles(w, 8)
  }

  function HexDigest(r: Registers): string {
    HexWord(r.a) + HexWord(r.b) + HexWord(r.c) + HexWord(r.d)
    + HexWord(r.e) + HexWord(r.f) + HexWord(r.g) + HexWord(r.h)
  }

  /** The digest of a message, in lower-case hexadecimal. */
  function Sha256(message: seq<bv8>): string
    requires 8 * |message| < 0x1_0000_0000_0000_0000
  {
    hide Pad, Words, WordAt, PaddedBlocks, HashValue, HexDigest;
    PadIsWholeBlocks(message);
    var words := Words(Pad(message));
    HexDigest(HashValue(words, PaddedBlocks(|message|)))
  }
}
