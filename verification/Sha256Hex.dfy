/** The hash as the service computes it, in JavaScript numbers.

    Words are signed 32-bit integers between bitwise operators and doubles between sums.
 */
module Sha256Hex {
  // Bytes are packed into a growing array of signed words and padded in place; eight running
  // registers are updated block by block.

  import opened Sha256Standard
  import opened JsNumbers

  // -------------------------------------------------------------- packing and padding

  /** Byte k of a message, reading zeros past its end. */
  function ByteAt(bytes: seq<bv8>, k: nat): bv8 {
    if k < |bytes| then bytes[k] else 0
  }

  /** Word j of a message, big-endian, reading zeros past its end. */
  function WordFrom(bytes: seq<bv8>, j: nat): bv32 {
    Join(ByteAt(bytes, 4 * j), ByteAt(bytes, 4 * j + 1), ByteAt(bytes, 4 * j + 2), ByteAt(bytes, 4 * j + 3))
  }

  /** Reading an array of numbers where a hole counts as zero. */
  function Read(words: seq<int>, i: nat): int {
    if i < |words| then words[i] else 0
  }

  /** Writing past the end grows the array, leaving holes. */
  function Write(words: seq<int>, i: nat, x: int): (r: seq<int>)
    ensures |r| == if i < |words| then |words| else i + 1
    ensures forall j :: 0 <= j < |r| ==> r[j] == if j == i then x else Read(words, j)
  {
    if i < |words| then words[i := x] else words + seq(i - |words|, _ => 0) + [x]
  }

  predicate AllWords(words: seq<int>) {
    forall j :: 0 <= j < |words| ==> IsWord(words[j])
  }

  /** The array holds exactly these bytes, packed big-endian. */
  ghost predicate Packs(words: seq<int>, bytes: seq<bv8>) {
    && AllWords(words)
    && |words| == (|bytes| + 3) / 4
    && forall j :: 0 <= j < |words| ==> Bits(words[j]) == WordFrom(bytes, j)
  }

  // Or-ing a byte into its lane of a word whose later lanes are still empty.
  lemma FillLane0(x: bv8)
    ensures Join(0, 0, 0, 0) | ShL(24, x as bv32) == Join(x, 0, 0, 0)
  {
  }

  lemma FillLane1(a: bv8, x: bv8)
    ensures Join(a, 0, 0, 0) | ShL(16, x as bv32) == Join(a, x, 0, 0)
  {
  }

  lemma FillLane2(a: bv8, b: bv8, x: bv8)
    ensures Join(a, b, 0, 0) | ShL(8, x as bv32) == Join(a, b, x, 0)
  {
  }

  lemma FillLane3(a: bv8, b: bv8, c: bv8, x: bv8)
    ensures Join(a, b, c, 0) | ShL(0, x as bv32) == Join(a, b, c, x)
  {
  }

  /** How far a byte is shifted into its word. */
  function Lane(i: nat): (n: nat)
    ensures n < 32
  {
    24 - i % 4 * 8
  }

  lemma OneByte(bytes: seq<bv8>, x: bv8)
    ensures WordFrom(bytes + [x], |bytes| / 4) == WordFrom(bytes, |bytes| / 4) | ShL(Lane(|bytes|), x as bv32)
  {
    hide Join, ShL;
    var i := |bytes|;
    var j := i / 4;
    var a, b, c := ByteAt(bytes, 4 * j), ByteAt(bytes, 4 * j + 1), ByteAt(bytes, 4 * j + 2);
    if i == 4 * j {
      FillLane0(x);
    } else if i == 4 * j + 1 {
      FillLane1(a, x);
    } else if i == 4 * j + 2 {
      FillLane2(a, b, x);
    } else {
      FillLane3(a, b, c, x);
    }
  }

  lemma OtherWords(bytes: seq<bv8>, x: bv8, j: nat)
    requires j != |bytes| / 4
    ensures WordFrom(bytes + [x], j) == WordFrom(bytes, j)
  {
    hide Join;
  }

  lemma OrShift(u: int, y: int, n: nat)
    requires n < 32
    ensures Bits(BitOr(u, ShiftLeft(y, n))) == Bits(u) | ShL(n, Bits(y))
  {
    hide Bits, BitOr, ShiftLeft, ShL;
  }

  lemma CurrentWord(words: seq<int>, bytes: seq<bv8>)
    requires Packs(words, bytes)
    ensures Bits(Read(words, |bytes| / 4)) == WordFrom(bytes, |bytes| / 4)
  {
    hide WordFrom, Bits;
    BeyondEnd(bytes, |bytes| / 4);
    BitsOfZero();
  }

  lemma NewWord(words: seq<int>, bytes: seq<bv8>, x: bv8)
    requires Packs(words, bytes)
    ensures var i := |bytes|;
            Bits(BitOr(Read(words, i / 4), ShiftLeft(x as int, Lane(i)))) == WordFrom(bytes + [x], i / 4)
  {
    hide WordFrom, Bits, BitOr, ShiftLeft, Lane, ShL, Packs, Read;
    BitsOfByte(x);
    CurrentWord(words, bytes);
    OneByte(bytes, x);
    OrShift(Read(words, |bytes| / 4), x as int, Lane(|bytes|));
  }

  /** Writing one more byte keeps the array packed. */
  lemma PackOne(words: seq<int>, bytes: seq<bv8>, x: bv8)
    requires Packs(words, bytes)
    ensures var i := |bytes|;
            Packs(Write(words, i / 4, BitOr(Read(words, i / 4), ShiftLeft(x as int, Lane(i)))), bytes + [x])
  {
    hide Join, WordFrom, Bits, BitOr, ShiftLeft, Lane, Write;
    var at := |bytes| / 4;
    NewWord(words, bytes, x);
    var next := Write(words, at, BitOr(Read(words, at), ShiftLeft(x as int, Lane(|bytes|))));
    forall j | 0 <= j < |next| ensures Bits(next[j]) == WordFrom(bytes + [x], j) {
      if j != at {
        OtherWords(bytes, x, j);
      }
    }
  }

  lemma BeyondEnd(bytes: seq<bv8>, j: nat)
    ensures 4 * j >= |bytes| ==> WordFrom(bytes, j) == 0
  {
  }

  lemma BitsOfZero()
    ensures Bits(0) == 0
  {
    BitsOf(0);
  }

  lemma BitsOfByte(b: bv8)
    ensures Bits(b as int) == b as bv32
  {
    BitsOf(b as bv32);
  }

  predicate Hashable(bytes: seq<bv8>) {
    8 * |bytes| + 64 < 0x8000_0000
  }

  /** The index the length is written at, and the arithmetic it comes from. */
  lemma LengthIndex(m: nat)
    requires 8 * m + 64 < 0x8000_0000
    ensures ShiftRight(8 * m, 5) == m / 4
    ensures 24 - 8 * m % 32 == Lane(m)
    ensures ShiftLeft(ShiftRight(8 * m + 64, 9), 4) + 15 == 16 * ((8 * m + 64) / 512) + 15
  {
    hide ShiftRight, ShiftLeft;
    assert Pow2(5) == 32 by {
      assert Pow2(2) == 4 && Pow2(4) == 4 * Pow2(2);
    }
    assert Pow2(9) == 512 by {
      assert Pow2(7) == 4 * Pow2(5) && Pow2(9) == 4 * Pow2(7);
    }
    assert ShiftRight(8 * m + 64, 9) == (8 * m + 64) / 512;
    assert 8 * m / 32 == m / 4;
    ShiftLeftFour((8 * m + 64) / 512);
  }

  lemma ByteIndex(i: nat)
    requires i < 0x8000_0000
    ensures ShiftRight(i, 2) == i / 4
    ensures Lane(i) == 24 - i % 4 * 8
  {
    hide ShiftRight;
    assert Pow2(2) == 4;
  }

  /** Packs the message, marks its end and stores its length, all in one array. */
  method PackAndPad(bytes: seq<bv8>) returns (words: seq<int>)
    requires Hashable(bytes)
    ensures AllWords(words)
    ensures |words| % 16 == 0 && 4 * |words| == |Pad(bytes)|
    ensures forall j :: 0 <= j < |words| ==> Bits(words[j]) == WordAt(Pad(bytes), j)
  {
    hide Bits, BitOr, ShiftLeft, ShiftRight, WordFrom, WordAt, Pad, Write, Read, Lane, Packs, AllWords;
    words := [];
    PackNone();
    assert bytes[..0] == [];
    for index := 0 to |bytes|
      invariant Packs(words, bytes[..index])
    {
      PackOne(words, bytes[..index], bytes[index]);
      ByteIndex(index);
      assert bytes[..index + 1] == bytes[..index] + [bytes[index]];
      var at := ShiftRight(index, 2);
      words := Write(words, at, BitOr(Read(words, at), ShiftLeft(bytes[index] as int, 24 - index % 4 * 8)));
    }
    assert bytes[..|bytes|] == bytes;
    var bitLength := |bytes| * 8;
    LengthIndex(|bytes|);
    PackOne(words, bytes, 0x80);
    var end := ShiftRight(bitLength, 5);
    words := Write(words, end, BitOr(Read(words, end), ShiftLeft(0x80, 24 - bitLength % 32)));
    var last := ShiftLeft(ShiftRight(bitLength + 64, 9), 4) + 15;
    ghost var packed := words;
    words := Write(words, last, bitLength);
    PaddedWords(packed, bytes, words);
  }

  lemma PackNone()
    ensures Packs([], [])
  {
  }

  lemma PaddedWords(packed: seq<int>, bytes: seq<bv8>, words: seq<int>)
    requires Hashable(bytes) && Packs(packed, bytes + [0x80])
    requires words == Write(packed, 16 * ((8 * |bytes| + 64) / 512) + 15, 8 * |bytes|)
    ensures AllWords(words)
    ensures |words| % 16 == 0 && 4 * |words| == |Pad(bytes)|
    ensures forall j :: 0 <= j < |words| ==> Bits(words[j]) == WordAt(Pad(bytes), j)
  {
    hide Bits, WordFrom, WordAt, Pad, Write;
    var last := 16 * ((8 * |bytes| + 64) / 512) + 15;
    PadIsWholeBlocks(bytes);
    assert |packed| <= last - 1;
    assert |words| == last + 1;
    forall j | 0 <= j < |words| ensures Bits(words[j]) == WordAt(Pad(bytes), j) {
      if j == last {
        LastWord(bytes);
      } else {
        MessageWord(bytes, j);
        BitsOfZero();
        BeyondEnd(bytes + [0x80], j);
      }
    }
  }

  lemma LengthBlockIs(n: nat)
    requires n < MODULUS
    ensures var block := LengthBlock(n);
            && |block| == 8
            && block[0] == block[1] == block[2] == block[3] == 0
            && Join(block[4], block[5], block[6], block[7]) == n as bv32
  {
    var w := WordOf(n);
    WideBits(w);
    FromBits(w);
    WideBytes(w);
  }

  lemma Widen(w: bv32)
    ensures (w as bv64) as int == w as int
  {
  }

  lemma FromWide(v: bv64)
    ensures (v as int) as bv64 == v
  {
  }

  lemma WideBits(w: bv32)
    ensures Value(w) as bv64 == w as bv64
  {
    Widen(w);
    FromWide(w as bv64);
  }

  lemma WideBytes(w: bv32)
    ensures var l := w as bv64;
            && (l >> 56) as bv8 == 0 && ((l >> 48) & 0xff) as bv8 == 0
            && ((l >> 40) & 0xff) as bv8 == 0 && ((l >> 32) & 0xff) as bv8 == 0
            && Join(((l >> 24) & 0xff) as bv8, ((l >> 16) & 0xff) as bv8, ((l >> 8) & 0xff) as bv8,
                    (l & 0xff) as bv8) == w
  {
  }

  /** Every word before the last is the message, its end mark, or zeros. */
  lemma MessageWord(bytes: seq<bv8>, j: nat)
    requires Hashable(bytes) && j < 16 * ((8 * |bytes| + 64) / 512) + 15
    ensures |Pad(bytes)| == 64 * PaddedBlocks(|bytes|)
    ensures WordAt(Pad(bytes), j) == WordFrom(bytes + [0x80], j)
  {
    hide LengthBlock, Join;
    PadIsWholeBlocks(bytes);
    LengthBlockIs(8 * |bytes|);
    forall k | 0 <= k < |Pad(bytes)| - 4 ensures Pad(bytes)[k] == ByteAt(bytes + [0x80], k) {
    }
  }

  lemma LastWord(bytes: seq<bv8>)
    requires Hashable(bytes)
    ensures var last := 16 * ((8 * |bytes| + 64) / 512) + 15;
            |Pad(bytes)| == 4 * last + 4 && WordAt(Pad(bytes), last) == Bits(8 * |bytes|)
  {
    hide LengthBlock, Join;
    PadIsWholeBlocks(bytes);
    LengthBlockIs(8 * |bytes|);
    var p := |Pad(bytes)|;
    assert Pad(bytes)[p - 8..] == LengthBlock(8 * |bytes|);
    assert forall i :: 0 <= i < 8 ==> Pad(bytes)[p - 8 + i] == LengthBlock(8 * |bytes|)[i];
  }

  // ------------------------------------------------------------------ the compression

  function Rotate(value: int, count: nat): (r: int)
    requires 0 < count < 32
    ensures Bits(r) == RotR(count, Bits(value)) && IsWord(r)
  {
    hide Bits, ShL, ShR, BitOr, ShiftRightUnsigned, ShiftLeft;
    BitOr(ShiftRightUnsigned(value, count), ShiftLeft(value, 32 - count))
  }

  function SmallSigma0Js(a: int): (r: int)
    ensures Bits(r) == SmallSigma0(Bits(a)) && IsWord(r)
  {
    hide Bits, RotR, ShR, Rotate, BitXor, ShiftRightUnsigned;
    BitXor(BitXor(Rotate(a, 7), Rotate(a, 18)), ShiftRightUnsigned(a, 3))
  }

  function SmallSigma1Js(b: int): (r: int)
    ensures Bits(r) == SmallSigma1(Bits(b)) && IsWord(r)
  {
    hide Bits, RotR, ShR, Rotate, BitXor, ShiftRightUnsigned;
    BitXor(BitXor(Rotate(b, 17), Rotate(b, 19)), ShiftRightUnsigned(b, 10))
  }

  function BigSigma0Js(a: int): (r: int)
    ensures Bits(r) == BigSigma0(Bits(a)) && IsWord(r)
  {
    hide Bits, RotR, Rotate, BitXor;
    BitXor(BitXor(Rotate(a, 2), Rotate(a, 13)), Rotate(a, 22))
  }

  function BigSigma1Js(e: int): (r: int)
    ensures Bits(r) == BigSigma1(Bits(e)) && IsWord(r)
  {
    hide Bits, RotR, Rotate, BitXor;
    BitXor(BitXor(Rotate(e, 6), Rotate(e, 11)), Rotate(e, 25))
  }

  function ChoiceJs(e: int, f: int, g: int): (r: int)
    ensures Bits(r) == Ch(Bits(e), Bits(f), Bits(g)) && IsWord(r)
  {
    hide Bits, BitXor, BitAnd, BitNot;
    BitXor(BitAnd(e, f), BitAnd(BitNot(e), g))
  }

  function MajorityJs(a: int, b: int, c: int): (r: int)
    ensures Bits(r) == Maj(Bits(a), Bits(b), Bits(c)) && IsWord(r)
  {
    hide Bits, BitXor, BitAnd;
    BitXor(BitXor(BitAnd(a, b), BitAnd(a, c)), BitAnd(b, c))
  }

  /** A truncated sum of four is addition modulo 2^32 in any order. */
  lemma SumOfFour(w: int, x: int, y: int, z: int)
    ensures Bits(w + x + y + z) == Add(Add(Add(Bits(z), Bits(y)), Bits(x)), Bits(w))
  {
    hide Bits, Add;
    BitsOfSum(z, y);
    BitsOfSum(z + y, x);
    BitsOfSum(z + y + x, w);
    assert w + x + y + z == z + y + x + w;
  }

  function BlockOf(words: seq<int>, offset: nat): (block: seq<bv32>)
    requires offset + 16 <= |words|
    ensures |block| == 16
  {
    seq(16, i requires 0 <= i < 16 => Bits(words[offset + i]))
  }

  /** Expands sixteen words into the message schedule, in place. */
  method Expand(words: seq<int>, offset: nat) returns (schedule: array<int>)
    requires AllWords(words) && offset + 16 <= |words|
    ensures fresh(schedule) && schedule.Length == 64 && AllWords(schedule[..])
    ensures forall t :: 0 <= t < 64 ==> Bits(schedule[t]) == Schedule(BlockOf(words, offset), t)
  {
    hide Bits, Add, Schedule, SmallSigma0, SmallSigma1, SmallSigma0Js, SmallSigma1Js, ToInt32, Plus, BlockOf;
    ghost var block := BlockOf(words, offset);
    schedule := new int[64];
    for index := 0 to 16
      invariant forall t :: 0 <= t < index ==> IsWord(schedule[t]) && Bits(schedule[t]) == Schedule(block, t)
    {
      ScheduleStart(words, offset, index);
      schedule[index] := words[offset + index];
    }
    for index := 16 to 64
      invariant forall t :: 0 <= t < index ==> IsWord(schedule[t]) && Bits(schedule[t]) == Schedule(block, t)
    {
      var s0 := SmallSigma0Js(schedule[index - 15]);
      var s1 := SmallSigma1Js(schedule[index - 2]);
      SumOfFour(schedule[index - 16], s0, schedule[index - 7], s1);
      ScheduleStep(block, index);
      schedule[index] := ToInt32(Plus(Plus(Plus(schedule[index - 16], s0), schedule[index - 7]), s1));
    }
  }

  lemma ScheduleStart(words: seq<int>, offset: nat, t: nat)
    requires offset + 16 <= |words| && t < 16
    ensures Schedule(BlockOf(words, offset), t) == Bits(words[offset + t])
  {
    hide Bits, Add;
  }

  lemma ScheduleStep(block: seq<bv32>, t: nat)
    requires |block| == 16 && t >= 16
    ensures Schedule(block, t) == Add(Add(Add(SmallSigma1(Schedule(block, t - 2)), Schedule(block, t - 7)),
                                          SmallSigma0(Schedule(block, t - 15))), Schedule(block, t - 16))
  {
    hide Add, SmallSigma0, SmallSigma1;
  }

  /** Eight registers as JavaScript holds them. */
  datatype Running = Running(a: int, b: int, c: int, d: int, e: int, f: int, g: int, h: int)

  predicate AreWords(x: Running) {
    && IsWord(x.a) && IsWord(x.b) && IsWord(x.c) && IsWord(x.d)
    && IsWord(x.e) && IsWord(x.f) && IsWord(x.g) && IsWord(x.h)
  }

  function RegisterBits(x: Running): Registers {
    Registers(Bits(x.a), Bits(x.b), Bits(x.c), Bits(x.d), Bits(x.e), Bits(x.f), Bits(x.g), Bits(x.h))
  }

  /** One round, in the order the code computes it. */
  function RoundJs(x: Running, k: int, w: int): (r: Running)
    requires AreWords(x) && IsWord(k) && IsWord(w)
    ensures AreWords(r) && RegisterBits(r) == Round(RegisterBits(x), Bits(k), Bits(w))
  {
    hide Bits, Add, BigSigma0, BigSigma1, Ch, Maj, BigSigma0Js, BigSigma1Js, ChoiceJs, MajorityJs, ToInt32, Plus;
    var s1 := BigSigma1Js(x.e);
    var choice := ChoiceJs(x.e, x.f, x.g);
    var temp1 := ToInt32(Plus(Plus(Plus(Plus(x.h, s1), choice), k), w));
    var s0 := BigSigma0Js(x.a);
    var majority := MajorityJs(x.a, x.b, x.c);
    var temp2 := ToInt32(Plus(s0, majority));
    Running(ToInt32(Plus(temp1, temp2)), x.a, x.b, x.c, ToInt32(Plus(x.d, temp1)), x.e, x.f, x.g)
  }

  lemma BitsOfSwappedSum(x: int, y: int)
    ensures Bits(x + y) == Add(Bits(y), Bits(x))
  {
    hide Bits, Add;
    BitsOfSum(y, x);
    assert x + y == y + x;
  }

  function AddTo(h: int, a: int): (r: int)
    requires IsWord(h) && IsWord(a)
    ensures IsWord(r) && Bits(r) == Add(Bits(a), Bits(h))
  {
    hide Bits, Add, ToInt32, Plus;
    BitsOfSwappedSum(h, a);
    ToInt32(Plus(h, a))
  }

  /** Compresses one block into the running hash value. */
  method Compress(start: Running, words: seq<int>, offset: nat) returns (next: Running)
    requires AreWords(start) && AllWords(words) && offset + 16 <= |words|
    ensures AreWords(next)
    ensures RegisterBits(next) == Sum(Rounds(RegisterBits(start), BlockOf(words, offset), 64), RegisterBits(start))
  {
    hide Bits, Add, Rounds, Round, Schedule, BlockOf, RoundJs, AddTo;
    ghost var block := BlockOf(words, offset);
    var schedule := Expand(words, offset);
    var x := start;
    NoRounds(RegisterBits(start), block);
    ghost var filled := schedule[..];
    for index := 0 to 64
      invariant schedule[..] == filled
      invariant AreWords(x) && RegisterBits(x) == Rounds(RegisterBits(start), block, index)
    {
      BitsOf(K[index]);
      Range(K[index]);
      OneRound(RegisterBits(start), block, index);
      assert IsWord(filled[index]) && schedule[index] == filled[index];
      x := RoundJs(x, Value(K[index]), schedule[index]);
    }
    next := Running(AddTo(start.a, x.a), AddTo(start.b, x.b), AddTo(start.c, x.c), AddTo(start.d, x.d),
                    AddTo(start.e, x.e), AddTo(start.f, x.f), AddTo(start.g, x.g), AddTo(start.h, x.h));
  }

  lemma NoRounds(start: Registers, block: seq<bv32>)
    requires |block| == 16
    ensures Rounds(start, block, 0) == start
  {
  }

  lemma OneRound(start: Registers, block: seq<bv32>, t: nat)
    requires |block| == 16 && t < 64
    ensures Rounds(start, block, t + 1) == Round(Rounds(start, block, t), K[t], Schedule(block, t))
  {
    hide Round, Schedule;
  }

  // ----------------------------------------------------------------- hexadecimal text

  /** The shortest hexadecimal numeral of a number. */
  function ToString16(n: nat): string {
    if n < 16 then [HEX[n]] else ToString16(n / 16) + [HEX[n % 16]]
  }

  function PadStart(s: string, width: nat): string {
    if |s| >= width then s else seq(width - |s|, _ => '0') + s
  }

  /** The low n hexadecimal digits of a number. */
  function Digits(n: nat, count: nat): string {
    if count == 0 then "" else Digits(n / 16, count - 1) + [HEX[n % 16]]
  }

  function Power16(n: nat): nat {
    if n == 0 then 1 else 16 * Power16(n - 1)
  }

  lemma {:induction false} ZeroDigits(count: nat)
    ensures Digits(0, count) == seq(count, _ => '0')
  {
    if count > 0 {
      ZeroDigits(count - 1);
      assert 0 / 16 == 0;
    }
  }

  lemma {:induction false} PaddedDigits(n: nat, width: nat)
    requires width > 0 && n < Power16(width)
    ensures |ToString16(n)| <= width
    ensures PadStart(ToString16(n), width) == Digits(n, width)
  {
    hide Digits, ToString16, PadStart;
    DigitsStep(n, width);
    if n < 16 {
      ZeroDigits(width - 1);
      PadOne(HEX[n], width);
    } else {
      PowerStep(n, width);
      PaddedDigits(n / 16, width - 1);
      PadSnoc(ToString16(n / 16), HEX[n % 16], width);
    }
  }

  lemma DigitsStep(n: nat, width: nat)
    requires width > 0
    ensures Digits(n, width) == Digits(n / 16, width - 1) + [HEX[n % 16]]
    ensures n < 16 ==> n / 16 == 0 && n % 16 == n && ToString16(n) == [HEX[n]]
    ensures n >= 16 ==> ToString16(n) == ToString16(n / 16) + [HEX[n % 16]]
  {
  }

  lemma PowerStep(n: nat, width: nat)
    requires 16 <= n < Power16(width) && width > 0
    ensures width > 1 && n / 16 < Power16(width - 1)
  {
  }

  lemma PadOne(c: char, width: nat)
    requires width > 0
    ensures PadStart([c], width) == seq(width - 1, _ => '0') + [c]
  {
  }

  lemma PadSnoc(s: string, c: char, width: nat)
    requires |s| < width
    ensures PadStart(s + [c], width) == PadStart(s, width - 1) + [c]
  {
  }

  function Glue(h: bv32, l: bv32): bv32 {
    (h << 4) | l
  }

  function High28(w: bv32): bv28 {
    (w >> 4) as bv28
  }

  function Low4(w: bv32): bv4 {
    (w & 0xf) as bv4
  }

  function From28(h: bv28): bv32 {
    h as bv32
  }

  function From4(l: bv4): bv32 {
    l as bv32
  }

  lemma SplitHigh(w: bv32)
    ensures HighPart(w) == From28(High28(w))
  {
  }

  lemma SplitLow(w: bv32)
    ensures LowPart(w) == From4(Low4(w))
  {
  }

  lemma SplitWhole(w: bv32)
    ensures w == Glue(HighPart(w), LowPart(w))
  {
  }

  lemma GlueBits(h: bv28, l: bv4)
    ensures (((h as bv32) << 4) | (l as bv32)) as int == ((h as bv32) as int) * 16 + ((l as bv32) as int)
    ensures 0 <= (l as bv32) as int < 16
  {
  }

  lemma GlueValue(h: bv28, l: bv4)
    ensures Value(Glue(From28(h), From4(l))) == Value(From28(h)) * 16 + Value(From4(l))
    ensures 0 <= Value(From4(l)) < 16
  {
    GlueBits(h, l);
  }

  lemma QuotientAndRest(n: int, q: int, r: int)
    requires n == q * 16 + r && 0 <= r < 16
    ensures q == n / 16 && r == n % 16
  {
  }

  lemma NibbleValue(w: bv32)
    ensures Value(HighPart(w)) == Value(w) / 16 && LowNibble(w) == Value(w) % 16
  {
    hide Value, HighPart, LowPart, Glue, High28, Low4, From28, From4;
    SplitHigh(w);
    SplitLow(w);
    SplitWhole(w);
    GlueValue(High28(w), Low4(w));
    QuotientAndRest(Value(w), Value(HighPart(w)), Value(LowPart(w)));
  }

  lemma {:induction false} NibblesAreDigits(w: bv32, n: nat)
    ensures Value(w) >= 0 && HexNibbles(w, n) == Digits(Value(w), n)
    decreases n
  {
    hide Value, HighPart, LowNibble;
    Range(w);
    if n > 0 {
      NibbleValue(w);
      NibblesAreDigits(HighPart(w), n - 1);
    }
  }

  /** A word as eight lower-case hexadecimal digits. */
  function HexJs(word: int): (s: string)
    ensures s == HexWord(Bits(word))
  {
    hide Bits, HexNibbles, Digits, ToString16, Value, ShR;
    var n := ShiftRightUnsigned(word, 0);
    ShiftByZero(Bits(word));
    BitsValue(n);
    WordFits(n);
    PaddedDigits(n, 8);
    NibblesAreDigits(Bits(word), 8);
    PadStart(ToString16(n), 8)
  }

  lemma ShiftByZero(w: bv32)
    ensures ShR(0, w) == w
  {
  }

  lemma WordFits(n: nat)
    requires n < MODULUS
    ensures n < Power16(8)
  {
    assert Power16(2) == 256;
    assert Power16(4) == 256 * Power16(2);
    assert Power16(6) == 256 * Power16(4);
    assert Power16(8) == 256 * Power16(6);
  }

  // ------------------------------------------------------------------- the whole hash

  const START := Running(0x6a09e667, 0xbb67ae85, 0x3c6ef372, 0xa54ff53a, 0x510e527f, 0x9b05688c, 0x1f83d9ab, 0x5be0cd19)

  /** The hand-written hash computes the standard digest of every message it can index. */
  method Sha256Of(bytes: seq<bv8>) returns (hex: string)
    requires Hashable(bytes)
    ensures hex == Sha256(bytes)
  {
    hide Bits, Pad, WordAt, HexWord, Rounds, BlockOf, Sum, AllWords;
    PadIsWholeBlocks(bytes);
    var words := PackAndPad(bytes);
    ghost var standard := Words(Pad(bytes));
    var x := START;
    StartBits();
    var offset := 0;
    while offset < |words|
      invariant offset <= |words| && offset % 16 == 0 && AreWords(x)
      invariant 16 * (offset / 16) <= |standard| && RegisterBits(x) == HashValue(standard, offset / 16)
    {
      SameBlock(words, standard, offset);
      NextValue(standard, offset / 16);
      x := Compress(x, words, offset);
      offset := offset + 16;
    }
    hex := HexJs(x.a) + HexJs(x.b) + HexJs(x.c) + HexJs(x.d) + HexJs(x.e) + HexJs(x.f) + HexJs(x.g) + HexJs(x.h);
  }

  lemma StartBits()
    ensures AreWords(START) && RegisterBits(START) == INITIAL
  {
    var r := INITIAL;
    BitsOf(r.a); BitsOf(r.b); BitsOf(r.c); BitsOf(r.d);
    BitsOf(r.e); BitsOf(r.f); BitsOf(r.g); BitsOf(r.h);
  }

  lemma SameBlock(words: seq<int>, standard: seq<bv32>, offset: nat)
    requires |words| == |standard| && offset + 16 <= |words|
    requires forall j :: 0 <= j < |words| ==> Bits(words[j]) == standard[j]
    ensures BlockOf(words, offset) == standard[offset..offset + 16]
  {
    hide Bits;
  }

  lemma NextValue(words: seq<bv32>, n: nat)
    requires 16 * (n + 1) <= |words|
    ensures HashValue(words, n + 1)
         == Sum(Rounds(HashValue(words, n), words[16 * n..16 * n + 16], 64), HashValue(words, n))
  {
    hide Rounds, Sum;
  }
}
