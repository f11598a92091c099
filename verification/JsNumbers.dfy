/** JavaScript numbers as far as the hash uses them.

    Integers are held exactly in doubles; the bitwise operators work on 32 bits and mostly answer
    with a signed result.
 */
module JsNumbers {
  import opened Sha256Standard

  /** Every integer up to this magnitude is exact in a double. */
  const EXACT := 0x20_0000_0000_0000

  /** The 32 bits a bitwise operator sees. */
  function Bits(x: int): bv32 {
    (x % MODULUS) as bv32
  }

  /** Those bits as the signed number a bitwise operator answers with. */
  function Signed(b: bv32): (x: int)
    ensures -0x8000_0000 <= x < 0x8000_0000
  {
    var n := Value(b);
    if n >= 0x8000_0000 then n - MODULUS else n
  }

  /** The values a 32-bit word may be held as: signed, or unsigned. */
  predicate IsWord(x: int) {
    -0x8000_0000 <= x < MODULUS
  }

  // ------------------------------------------------- bit vectors and integers agree

  lemma Range(b: bv32)
    ensures 0 <= Value(b) < MODULUS
  {
  }

  lemma FromBits(b: bv32)
    ensures Value(b) as bv32 == b
  {
  }

  lemma NextByte(b: bv8)
    requires b as int < 0xff
    ensures (b + 1) as int == b as int + 1
  {
  }

  lemma {:induction false} ByteOf(n: nat) returns (b: bv8)
    requires n < 0x100
    ensures b as int == n
  {
    if n == 0 {
      b := 0;
    } else {
      var c := ByteOf(n - 1);
      NextByte(c);
      b := c + 1;
    }
  }

  lemma JoinBytes(h: bv8, l: bv8)
    ensures (((h as bv16) << 8) | (l as bv16)) as int == (h as int) * 0x100 + (l as int)
  {
  }

  lemma JoinHalves(h: bv16, l: bv16)
    ensures (((h as bv32) << 16) | (l as bv32)) as int == (h as int) * 0x1_0000 + (l as int)
  {
  }

  lemma HalfOf(n: nat) returns (b: bv16)
    requires n < 0x1_0000
    ensures b as int == n
  {
    var h := ByteOf(n / 0x100);
    var l := ByteOf(n % 0x100);
    JoinBytes(h, l);
    b := ((h as bv16) << 8) | (l as bv16);
  }

  lemma WordOf(n: nat) returns (b: bv32)
    requires n < MODULUS
    ensures Value(b) == n
  {
    var h := HalfOf(n / 0x1_0000);
    var l := HalfOf(n % 0x1_0000);
    JoinHalves(h, l);
    b := ((h as bv32) << 16) | (l as bv32);
  }

  /** The bits of a number hold its residue. */
  lemma BitsValue(x: int)
    ensures Value(Bits(x)) == x % MODULUS
  {
    var b := WordOf(x % MODULUS);
    FromBits(b);
  }

  lemma SameBits(x: int, y: int)
    requires x % MODULUS == y % MODULUS
    ensures Bits(x) == Bits(y)
  {
  }

  lemma BitsOf(b: bv32)
    ensures Bits(Value(b)) == b
  {
    FromBits(b);
  }

  lemma WrapsAround(n: int)
    ensures (n - MODULUS) % MODULUS == n % MODULUS
  {
  }

  lemma SignedKeepsResidue(b: bv32)
    ensures Signed(b) % MODULUS == Value(b) % MODULUS
  {
    hide Value;
    Range(b);
    WrapsAround(Value(b));
  }

  lemma BitsOfSigned(b: bv32)
    ensures Bits(Signed(b)) == b
  {
    hide Bits, Signed, Value;
    BitsOf(b);
    SignedKeepsResidue(b);
    SameBits(Signed(b), Value(b));
  }

  lemma ModAdd(x: int, y: int)
    ensures (x + y) % MODULUS == (x % MODULUS + y % MODULUS) % MODULUS
  {
  }

  lemma AddIs(x: bv32, y: bv32)
    ensures Add(x, y) == Bits(Value(x) + Value(y))
  {
    hide Value;
  }

  /** Adding numbers adds their bits modulo 2^32. */
  lemma BitsOfSum(x: int, y: int)
    ensures Bits(x + y) == Add(Bits(x), Bits(y))
  {
    hide Bits, Add, Value;
    BitsValue(x);
    BitsValue(y);
    ModAdd(x, y);
    AddIs(Bits(x), Bits(y));
    SameBits(x + y, Value(Bits(x)) + Value(Bits(y)));
  }

  // ------------------------------------------------------------------ the operators

  /** `x + y`, where the exact sum fits a double. */
  function Plus(x: int, y: int): (r: int)
    requires -EXACT <= x + y <= EXACT
    ensures r == x + y && Bits(r) == Add(Bits(x), Bits(y))
  {
    hide Bits, Add;
    BitsOfSum(x, y);
    x + y
  }

  /** The number a bitwise operator answers with for these bits. */
  function Answer(b: bv32): (r: int)
    ensures Bits(r) == b && IsWord(r) && r < 0x8000_0000
  {
    BitsOfSigned(b);
    Signed(b)
  }

  /** `x | 0` */
  function ToInt32(x: int): (r: int)
    ensures Bits(r) == Bits(x) && IsWord(r) && r < 0x8000_0000
  {
    hide Bits, Answer; Answer(Bits(x))
  }

  function BitOr(x: int, y: int): (r: int)
    ensures Bits(r) == Bits(x) | Bits(y) && IsWord(r)
  {
    hide Bits, Answer; Answer(Bits(x) | Bits(y))
  }

  function BitAnd(x: int, y: int): (r: int)
    ensures Bits(r) == Bits(x) & Bits(y) && IsWord(r)
  {
    hide Bits, Answer; Answer(Bits(x) & Bits(y))
  }

  function BitXor(x: int, y: int): (r: int)
    ensures Bits(r) == Bits(x) ^ Bits(y) && IsWord(r)
  {
    hide Bits, Answer; Answer(Bits(x) ^ Bits(y))
  }

  function BitNot(x: int): (r: int)
    ensures Bits(r) == !Bits(x) && IsWord(r)
  {
    hide Bits, Answer; Answer(!Bits(x))
  }

  function ShiftLeft(x: int, n: nat): (r: int)
    requires n < 32
    ensures Bits(r) == ShL(n, Bits(x)) && IsWord(r)
  {
    hide Bits, Answer, ShL; Answer(ShL(n, Bits(x)))
  }

  /** `x >>> n`, the one operator that answers with an unsigned number. */
  function ShiftRightUnsigned(x: int, n: nat): (r: int)
    requires n < 32
    ensures Bits(r) == ShR(n, Bits(x)) && 0 <= r < MODULUS
  {
    hide Bits, ShR, Value;
    BitsOf(ShR(n, Bits(x)));
    Range(ShR(n, Bits(x)));
    Value(ShR(n, Bits(x)))
  }

  function Pow2(n: nat): (p: nat)
    ensures p > 0
  {
    if n == 0 then 1 else 2 * Pow2(n - 1)
  }

  lemma SmallStays(x: int)
    requires 0 <= x < 0x8000_0000
    ensures ToInt32(x) == x
  {
    hide Bits, ToInt32, Value;
    BitsValue(x);
    BitsValue(ToInt32(x));
  }

  /** `x >> n`: the signed value divided by 2^n, rounding down. */
  function ShiftRight(x: int, n: nat): (r: int)
    requires n < 32
    ensures 0 <= x < 0x8000_0000 ==> r == x / Pow2(n)
  {
    hide ToInt32, Pow2;
    if 0 <= x < 0x8000_0000 then SmallStays(x); ToInt32(x) / Pow2(n) else ToInt32(x) / Pow2(n)
  }

  function Narrowed(b: bv32): bv24
    requires b < 0x100_0000
  {
    b as bv24
  }

  function Widened(h: bv24): bv32 {
    h as bv32
  }

  lemma Narrow(b: bv32)
    requires Value(b) < 0x100_0000
    ensures b < 0x100_0000 && Widened(Narrowed(b)) == b
  {
  }

  lemma ShiftBits(h: bv24)
    ensures ((h as bv32) << 4) as int == 16 * ((h as bv32) as int)
  {
  }

  lemma ShiftValue(h: bv24)
    ensures Value((h as bv32) << 4) == 16 * Value(h as bv32)
  {
    ShiftBits(h);
  }

  lemma ShiftNarrow(h: bv24)
    ensures Value(ShL(4, Widened(h))) == 16 * Value(Widened(h))
  {
    hide Value;
    assert ShL(4, Widened(h)) == (h as bv32) << 4;
    ShiftValue(h);
  }

  lemma TimesSixteen(b: bv32)
    requires Value(b) < 0x100_0000
    ensures Value(ShL(4, b)) == 16 * Value(b)
  {
    hide Value, Widened, Narrowed, ShL;
    Narrow(b);
    ShiftNarrow(Narrowed(b));
  }

  /** Shifting a small number left by four multiplies it by sixteen. */
  lemma ShiftLeftFour(x: int)
    requires 0 <= x < 0x100_0000
    ensures ShiftLeft(x, 4) == 16 * x
  {
    hide ShL, Bits, Value;
    BitsValue(x);
    TimesSixteen(Bits(x));
  }
}
