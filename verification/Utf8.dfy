/** UTF-8, and the byte order of encoded text.

    Both the service and the device order paths by their bytes; this module shows that order to
    be the order of code points.
 */
module Utf8 {

  type Byte = n: nat | n < 256

  /** The UTF-8 encoding of a code point. */
  function EncodePoint(n: nat): (bytes: seq<Byte>)
    requires n < 0x11_0000
    ensures 1 <= |bytes| <= 4
  {
    if n < 0x80 then [n]
    else if n < 0x800 then [0xC0 + n / 0x40, 0x80 + n % 0x40]
    else if n < 0x1_0000 then [0xE0 + n / 0x1000, 0x80 + n / 0x40 % 0x40, 0x80 + n % 0x40]
    else [0xF0 + n / 0x4_0000, 0x80 + n / 0x1000 % 0x40, 0x80 + n / 0x40 % 0x40, 0x80 + n % 0x40]
  }

  function EncodeChar(c: char): (bytes: seq<Byte>)
    ensures 1 <= |bytes| <= 4
  {
    EncodePoint(c as int)
  }

  function Encode(s: string): seq<Byte> {
    if s == [] then [] else EncodeChar(s[0]) + Encode(s[1..])
  }

  function ByteLen(s: string): nat {
    |Encode(s)|
  }

  lemma {:induction false} EncodeConcat(a: string, b: string)
    ensures Encode(a + b) == Encode(a) + Encode(b)
  {
    if a == [] {
      assert a + b == b;
    } else {
      assert (a + b)[1..] == a[1..] + b;
      EncodeConcat(a[1..], b);
    }
  }

  lemma ByteLenConcat(a: string, b: string)
    ensures ByteLen(a + b) == ByteLen(a) + ByteLen(b)
  {
    hide Encode;
    EncodeConcat(a, b);
  }

  lemma {:induction false} LengthBounds(s: string)
    ensures |s| <= ByteLen(s) <= 4 * |s|
    ensures ByteLen(s) == |s| <==> forall i :: 0 <= i < |s| ==> (s[i] as int) < 0x80
  {
    if s != [] {
      LengthBounds(s[1..]);
      assert forall i :: 0 <= i < |s| - 1 ==> s[1..][i] == s[i + 1];
    }
  }

  // ------------------------------------------------------------------- byte order

  /** Lexicographic order: the first difference decides, and a proper prefix comes first. */
  predicate Less(a: seq<Byte>, b: seq<Byte>) {
    b != [] && (a == [] || a[0] < b[0] || (a[0] == b[0] && Less(a[1..], b[1..])))
  }

  lemma {:induction false} LessIrreflexive(a: seq<Byte>)
    ensures !Less(a, a)
  {
    if a != [] {
      LessIrreflexive(a[1..]);
    }
  }

  lemma {:induction false} LessTransitive(a: seq<Byte>, b: seq<Byte>, c: seq<Byte>)
    requires Less(a, b) && Less(b, c)
    ensures Less(a, c)
  {
    if a != [] && a[0] == b[0] && b[0] == c[0] {
      LessTransitive(a[1..], b[1..], c[1..]);
    }
  }

  lemma {:induction false} LessTotal(a: seq<Byte>, b: seq<Byte>)
    ensures Less(a, b) || a == b || Less(b, a)
    ensures !(Less(a, b) && Less(b, a))
  {
    if a != [] && b != [] && a[0] == b[0] {
      LessTotal(a[1..], b[1..]);
      assert a == [a[0]] + a[1..] && b == [b[0]] + b[1..];
    }
  }

  /** Skipping a common prefix does not change the order. */
  lemma {:induction false} LessPastPrefix(a: seq<Byte>, b: seq<Byte>, i: nat)
    requires i <= |a| && i <= |b| && a[..i] == b[..i]
    ensures Less(a, b) <==> Less(a[i..], b[i..])
  {
    if i > 0 {
      assert a[0] == a[..i][0] == b[0];
      assert a[1..][..i - 1] == a[..i][1..] && b[1..][..i - 1] == b[..i][1..];
      LessPastPrefix(a[1..], b[1..], i - 1);
      assert a[1..][i - 1..] == a[i..] && b[1..][i - 1..] == b[i..];
    } else {
      assert a[0..] == a && b[0..] == b;
    }
  }

  predicate FirstDiffersAt(a: seq<Byte>, b: seq<Byte>, k: nat) {
    k < |a| && k < |b| && a[..k] == b[..k] && a[k] < b[k]
  }

  lemma SixBits(n: nat)
    ensures n / 0x1000 == n / 0x40 / 0x40 && n / 0x4_0000 == n / 0x1000 / 0x40
    ensures n == n / 0x40 * 0x40 + n % 0x40
    ensures n / 0x40 == n / 0x1000 * 0x40 + n / 0x40 % 0x40
    ensures n / 0x1000 == n / 0x4_0000 * 0x40 + n / 0x1000 % 0x40
  {
  }

  /** Splitting off six bits at a time compares numbers digit by digit. */
  lemma DigitOrder(n: nat, m: nat)
    requires n < m
    ensures n / 0x40 <= m / 0x40
    ensures n / 0x40 == m / 0x40 ==> n % 0x40 < m % 0x40
    ensures n / 0x1000 <= m / 0x1000
    ensures n / 0x1000 == m / 0x1000 && n / 0x40 != m / 0x40 ==> n / 0x40 % 0x40 < m / 0x40 % 0x40
    ensures n / 0x4_0000 <= m / 0x4_0000
    ensures n / 0x4_0000 == m / 0x4_0000 && n / 0x1000 != m / 0x1000 ==> n / 0x1000 % 0x40 < m / 0x1000 % 0x40
  {
    SixBits(n);
    SixBits(m);
  }

  lemma LeadBytesDiffer(n: nat, m: nat)
    requires n < m < 0x11_0000 && |EncodePoint(n)| != |EncodePoint(m)|
    ensures FirstDiffersAt(EncodePoint(n), EncodePoint(m), 0)
  {
  }

  lemma TwoBytesDiffer(n: nat, m: nat) returns (k: nat)
    requires n < m < 0x800 && n >= 0x80
    ensures FirstDiffersAt(EncodePoint(n), EncodePoint(m), k)
  {
    DigitOrder(n, m);
    k := if n / 0x40 == m / 0x40 then 1 else 0;
  }

  lemma ThreeBytesDiffer(n: nat, m: nat) returns (k: nat)
    requires n < m < 0x1_0000 && n >= 0x800
    ensures FirstDiffersAt(EncodePoint(n), EncodePoint(m), k)
  {
    DigitOrder(n, m);
    k := if n / 0x1000 != m / 0x1000 then 0 else if n / 0x40 != m / 0x40 then 1 else 2;
    SixBits(n);
    SixBits(m);
    var a, b := EncodePoint(n), EncodePoint(m);
    assert k >= 1 ==> a[0] == b[0];
    assert k == 2 ==> a[1] == b[1];
  }

  lemma FourBytesDiffer(n: nat, m: nat) returns (k: nat)
    requires n < m < 0x11_0000 && n >= 0x1_0000
    ensures FirstDiffersAt(EncodePoint(n), EncodePoint(m), k)
  {
    DigitOrder(n, m);
    k := if n / 0x4_0000 != m / 0x4_0000 then 0
         else if n / 0x1000 != m / 0x1000 then 1
         else if n / 0x40 != m / 0x40 then 2 else 3;
    SixBits(n);
    SixBits(m);
    var a, b := EncodePoint(n), EncodePoint(m);
    assert k >= 1 ==> a[0] == b[0];
    assert k >= 2 ==> a[1] == b[1];
    assert k == 3 ==> a[2] == b[2];
  }

  /** Two characters differ first at a byte that orders them as their code points. */
  lemma FirstDifference(c: char, d: char) returns (k: nat)
    requires c < d
    ensures FirstDiffersAt(EncodeChar(c), EncodeChar(d), k)
  {
    var n, m := c as int, d as int;
    if |EncodePoint(n)| != |EncodePoint(m)| {
      LeadBytesDiffer(n, m);
      k := 0;
    } else if m < 0x80 {
      k := 0;
    } else if m < 0x800 {
      k := TwoBytesDiffer(n, m);
    } else if m < 0x1_0000 {
      k := ThreeBytesDiffer(n, m);
    } else {
      k := FourBytesDiffer(n, m);
    }
  }

  lemma DifferenceDecides(a: seq<Byte>, b: seq<Byte>, k: nat, x: seq<Byte>, y: seq<Byte>)
    requires FirstDiffersAt(a, b, k)
    ensures Less(a + x, b + y)
  {
    assert (a + x)[..k] == a[..k] && (b + y)[..k] == b[..k];
    LessPastPrefix(a + x, b + y, k);
  }

  predicate TextLess(s: string, t: string) {
    t != [] && (s == [] || s[0] < t[0] || (s[0] == t[0] && TextLess(s[1..], t[1..])))
  }

  /** UTF-8 keeps order: encoded text compares by bytes as the text compares by code points. */
  lemma {:induction false} OrderPreserved(s: string, t: string)
    ensures TextLess(s, t) ==> Less(Encode(s), Encode(t))
    ensures TextLess(s, t) || s == t || TextLess(t, s)
  {
    if s != [] && t != [] {
      if s[0] == t[0] {
        OrderPreserved(s[1..], t[1..]);
        var head := EncodeChar(s[0]);
        LessPastPrefix(head + Encode(s[1..]), head + Encode(t[1..]), |head|);
        assert s == [s[0]] + s[1..] && t == [t[0]] + t[1..];
      } else if s[0] < t[0] {
        var k := FirstDifference(s[0], t[0]);
        DifferenceDecides(EncodeChar(s[0]), EncodeChar(t[0]), k, Encode(s[1..]), Encode(t[1..]));
      }
    }
  }

  /** Distinct texts have distinct encodings, ordered one way or the other. */
  lemma EncodeIsInjective(s: string, t: string)
    ensures Encode(s) == Encode(t) <==> s == t
    ensures Less(Encode(s), Encode(t)) <==> TextLess(s, t)
  {
    OrderPreserved(s, t);
    OrderPreserved(t, s);
    LessIrreflexive(Encode(s));
    LessTotal(Encode(s), Encode(t));
  }

  /** The number its bytes carry: six bits in each but the first, after a mark. */
  function Carried(b: seq<Byte>, mark: nat): int
    requires b != []
  {
    if |b| == 1 then b[0] as int - mark
    else 0x40 * Carried(b[..|b| - 1], mark) + (b[|b| - 1] as int - 0x80)
  }

  /** A character is read back from its bytes: how many there are tells the mark of the first, which are
      those of RFC 3629, and no length is used where a shorter one would do.
   */
  lemma EncodingReadsBack(c: char)
    ensures var b, n := EncodeChar(c), c as int;
            && |b| == (if n < 0x80 then 1 else if n < 0x800 then 2 else if n < 0x1_0000 then 3 else 4)
            && Carried(b, [0x00, 0xC0, 0xE0, 0xF0][|b| - 1]) == n
            && forall i :: 1 <= i < |b| ==> 0x80 <= b[i] < 0xC0
  {
    hide EncodePoint, Carried;
    var n := c as int;
    if n < 0x80 {
      OneByteCarries(n);
    } else if n < 0x800 {
      TwoBytesCarry(n);
    } else if n < 0x1_0000 {
      ThreeBytesCarry(n);
    } else {
      FourBytesCarry(n);
    }
  }

  lemma OneByteCarries(n: nat)
    requires n < 0x80
    ensures var b := EncodePoint(n); |b| == 1 && Carried(b, 0) == n
  {
  }

  lemma TwoBytesCarry(n: nat)
    requires 0x80 <= n < 0x800
    ensures var b := EncodePoint(n); |b| == 2 && Carried(b, 0xC0) == n && 0x80 <= b[1] < 0xC0
  {
    SixBits(n);
    CarriedTwo(EncodePoint(n), 0xC0);
  }

  lemma ThreeBytesCarry(n: nat)
    requires 0x800 <= n < 0x1_0000
    ensures var b := EncodePoint(n);
            |b| == 3 && Carried(b, 0xE0) == n && 0x80 <= b[1] < 0xC0 && 0x80 <= b[2] < 0xC0
  {
    SixBits(n);
    CarriedThree(EncodePoint(n), 0xE0);
  }

  lemma FourBytesCarry(n: nat)
    requires 0x1_0000 <= n < 0x11_0000
    ensures var b := EncodePoint(n);
            |b| == 4 && Carried(b, 0xF0) == n && 0x80 <= b[1] < 0xC0 && 0x80 <= b[2] < 0xC0 && 0x80 <= b[3] < 0xC0
  {
    SixBits(n);
    CarriedThree(EncodePoint(n)[..3], 0xF0);
  }

  lemma CarriedTwo(b: seq<Byte>, mark: nat)
    requires |b| == 2
    ensures Carried(b, mark) == 0x40 * (b[0] as int - mark) + (b[1] as int - 0x80)
  {
    assert b[..1] == [b[0]];
  }

  lemma CarriedThree(b: seq<Byte>, mark: nat)
    requires |b| == 3
    ensures Carried(b, mark) == 0x1000 * (b[0] as int - mark) + 0x40 * (b[1] as int - 0x80) + (b[2] as int - 0x80)
  {
    CarriedTwo(b[..2], mark);
  }

  /** Text is encoded character by character. */
  lemma EncodeSpelledOut(s: string, c: char)
    ensures Encode("") == [] && Encode(s + [c]) == Encode(s) + EncodeChar(c)
  {
    assert [c][1..] == [];
    assert Encode([c]) == EncodeChar(c) + Encode([]);
    EncodeConcat(s, [c]);
  }

  /** The order, spelled out: at the first difference the smaller byte, or the end, comes first. */
  lemma {:induction false} LessSpelledOut(a: seq<Byte>, b: seq<Byte>)
    ensures Less(a, b) <==>
      exists k :: 0 <= k <= |a| && k < |b| && a[..k] == b[..k] && (k == |a| || a[k] < b[k])
  {
    if k :| 0 <= k <= |a| && k < |b| && a[..k] == b[..k] && (k == |a| || a[k] < b[k]) {
      LessPastPrefix(a, b, k);
    }
    if Less(a, b) {
      var k := FirstDifferent(a, b);
    }
  }

  lemma {:induction false} FirstDifferent(a: seq<Byte>, b: seq<Byte>) returns (k: nat)
    requires Less(a, b)
    ensures k <= |a| && k < |b| && a[..k] == b[..k] && (k == |a| || a[k] < b[k])
  {
    if a == [] || a[0] < b[0] {
      k := 0;
    } else {
      var j := FirstDifferent(a[1..], b[1..]);
      k := j + 1;
      assert a[..k] == [a[0]] + a[1..][..j] && b[..k] == [b[0]] + b[1..][..j];
    }
  }
}
