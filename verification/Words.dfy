/** Numbers as big-endian bytes and as four 64-bit limbs, and the conversions of
    package word between them. */
module Words {
  import opened Messages

  /** Big-endian bytes of n in k positions. */
  function BigEndian(n: nat, k: nat): (b: Bytes)
    ensures |b| == k
  {
    if k == 0 then [] else BigEndian(n / 256, k - 1) + [n % 256]
  }

  function Power256(k: nat): nat {
    if k == 0 then 1 else 256 * Power256(k - 1)
  }

  lemma {:induction false} BigEndianInjective(n: nat, m: nat, k: nat)
    requires n < Power256(k) && m < Power256(k) && BigEndian(n, k) == BigEndian(m, k)
    ensures n == m
  {
    if k == 0 {
    } else {
      assert BigEndian(n, k)[..k - 1] == BigEndian(n / 256, k - 1);
      assert BigEndian(m, k)[..k - 1] == BigEndian(m / 256, k - 1);
      assert BigEndian(n, k)[k - 1] == n % 256 && BigEndian(m, k)[k - 1] == m % 256;
      BigEndianInjective(n / 256, m / 256, k - 1);
    }
  }

  const TWO_64 := 0x1_0000_0000_0000_0000
  const TWO_256 := 0x1_0000_0000_0000_0000_0000_0000_0000_0000_0000_0000_0000_0000_0000_0000_0000_0000

  lemma WordPower()
    ensures Power256(8) == TWO_64
  {
    assert Power256(2) == 0x1_0000;
    assert Power256(4) == 0x1_0000_0000;
    assert Power256(6) == 0x1_0000_0000_0000;
  }

  /** The number a big-endian byte string denotes. */
  function FromBytes(b: Bytes): nat {
    if b == [] then 0 else 256 * FromBytes(b[..|b| - 1]) + b[|b| - 1]
  }

  /** Encoding then decoding gives the number back. */
  lemma {:induction false} DecodeEncode(n: nat, k: nat)
    requires n < Power256(k)
    ensures FromBytes(BigEndian(n, k)) == n
  {
    if k > 0 {
      var b := BigEndian(n, k);
      assert b[..k - 1] == BigEndian(n / 256, k - 1) && b[k - 1] == n % 256;
      DecodeEncode(n / 256, k - 1);
    }
  }

  /** Decoding then encoding gives the bytes back. */
  lemma {:induction false} EncodeDecode(b: Bytes)
    ensures FromBytes(b) < Power256(|b|)
    ensures BigEndian(FromBytes(b), |b|) == b
  {
    if b != [] {
      var pre, last := b[..|b| - 1], b[|b| - 1];
      EncodeDecode(pre);
      assert FromBytes(b) / 256 == FromBytes(pre) && FromBytes(b) % 256 == last;
      assert b == pre + [last];
    }
  }

  lemma Times256(x: int, p: int)
    ensures x * (256 * p) == 256 * (x * p)
  {
  }

  lemma {:induction false} FromBytesAppend(a: Bytes, b: Bytes)
    ensures FromBytes(a + b) == FromBytes(a) * Power256(|b|) + FromBytes(b)
  {
    if b == [] {
      assert a + b == a;
    } else {
      var pre, last := b[..|b| - 1], b[|b| - 1];
      assert (a + b)[..|a + b| - 1] == a + pre && (a + b)[|a + b| - 1] == last;
      FromBytesAppend(a, pre);
      Times256(FromBytes(a), Power256(|pre|));
    }
  }

  lemma AppendWord(a: Bytes, w: Bytes)
    requires |w| == 8
    ensures FromBytes(a + w) == 0x1_0000_0000_0000_0000 * FromBytes(a) + FromBytes(w)
  {
    FromBytesAppend(a, w);
    WordPower();
  }

  // ----- limbs -----

  type U64 = x: int | 0 <= x < 0x1_0000_0000_0000_0000

  /** A 256-bit number, least significant limb first. */
  type Limbs = l: seq<U64> | |l| == 4 witness [0, 0, 0, 0]

  /** One more limb below a number. */
  function Below(high: nat, low: U64): nat {
    0x1_0000_0000_0000_0000 * high + low
  }

  function LimbValue(l: Limbs): (n: nat)
  {
    Below(Below(Below(l[3], l[2]), l[1]), l[0])
  }

  lemma BelowInjective(h: nat, l: U64, h': nat, l': U64)
    requires Below(h, l) == Below(h', l')
    ensures h == h' && l == l'
  {
  }

  lemma LimbValueInjective(a: Limbs, b: Limbs)
    requires LimbValue(a) == LimbValue(b)
    ensures a == b
  {
    var a2, b2 := Below(a[3], a[2]), Below(b[3], b[2]);
    var a1, b1 := Below(a2, a[1]), Below(b2, b[1]);
    BelowInjective(a1, a[0], b1, b[0]);
    BelowInjective(a2, a[1], b2, b[1]);
    BelowInjective(a[3], a[2], b[3], b[2]);
    SameLimbs(a, b);
  }

  lemma SameLimbs(a: Limbs, b: Limbs)
    requires a[0] == b[0] && a[1] == b[1] && a[2] == b[2] && a[3] == b[3]
    ensures a == b
  {
  }

  lemma LimbValueBound(l: Limbs)
    ensures LimbValue(l) < TWO_256
  {
  }

  /** The most significant limb comes first, each limb big-endian. */
  function U64toByte_256(a: Limbs): (b: Bytes)
    ensures |b| == 32
  {
    BigEndian(a[3], 8) + BigEndian(a[2], 8) + BigEndian(a[1], 8) + BigEndian(a[0], 8)
  }

  function BytetoU64_64(x: Bytes): (n: U64)
    requires |x| == 8
  {
    EncodeDecode(x);
    WordPower();
    FromBytes(x)
  }

  /** Reads the first 32 bytes. */
  function BytetoU64_256(x: Bytes): Limbs
    requires |x| >= 32
  {
    [BytetoU64_64(x[24..32]), BytetoU64_64(x[16..24]), BytetoU64_64(x[8..16]), BytetoU64_64(x[..8])]
  }

  /** The bytes of the limbs are the big-endian bytes of the number. */
  lemma BytesOfLimbs(a: Limbs)
    ensures FromBytes(U64toByte_256(a)) == LimbValue(a)
    ensures U64toByte_256(a) == BigEndian(LimbValue(a), 32)
  {
    var b3, b2, b1, b0 := BigEndian(a[3], 8), BigEndian(a[2], 8), BigEndian(a[1], 8), BigEndian(a[0], 8);
    WordPower();
    DecodeEncode(a[3], 8);
    DecodeEncode(a[2], 8);
    DecodeEncode(a[1], 8);
    DecodeEncode(a[0], 8);
    FourWordsOfBytes(b3, b2, b1, b0);
    EncodeDecode(U64toByte_256(a));
  }

  lemma FourWordsOfBytes(w3: Bytes, w2: Bytes, w1: Bytes, w0: Bytes)
    requires |w3| == |w2| == |w1| == |w0| == 8
    requires FromBytes(w3) < TWO_64 && FromBytes(w2) < TWO_64 && FromBytes(w1) < TWO_64 && FromBytes(w0) < TWO_64
    ensures FromBytes(w3 + w2 + w1 + w0) == LimbValue([FromBytes(w0), FromBytes(w1), FromBytes(w2), FromBytes(w3)])
  {
    AppendWord(w3, w2);
    AppendWord(w3 + w2, w1);
    AppendWord(w3 + w2 + w1, w0);
  }

  /** The limbs of 32 bytes denote the number the bytes denote, and give them back. */
  lemma LimbsOfBytes(x: Bytes)
    requires |x| >= 32
    ensures LimbValue(BytetoU64_256(x)) == FromBytes(x[..32])
    ensures U64toByte_256(BytetoU64_256(x)) == x[..32]
  {
    WordPower();
    var w3, w2, w1, w0 := x[..8], x[8..16], x[16..24], x[24..32];
    assert x[..32] == w3 + w2 + w1 + w0;
    EncodeDecode(w3);
    EncodeDecode(w2);
    EncodeDecode(w1);
    EncodeDecode(w0);
    FourWordsOfBytes(w3, w2, w1, w0);
  }

  /** Limbs to bytes and back is the identity. */
  lemma LimbsRoundTrip(a: Limbs)
    ensures BytetoU64_256(U64toByte_256(a)) == a
  {
    BytesOfLimbs(a);
    LimbsOfBytes(U64toByte_256(a));
    assert U64toByte_256(a)[..32] == U64toByte_256(a);
    LimbValueInjective(BytetoU64_256(U64toByte_256(a)), a);
  }

  // ----- big integers -----

  /** The words of a big integer's magnitude, least significant first, without
      leading zeros. */
  function Bits(n: nat): seq<U64> {
    if n == 0 then [] else [n % TWO_64] + Bits(n / TWO_64)
  }

  function Word(n: nat, i: nat): U64 {
    if i < |Bits(n)| then Bits(n)[i] else 0
  }

  lemma WordStep(n: nat, i: nat)
    ensures i == 0 ==> Word(n, i) == n % TWO_64
    ensures i > 0 ==> Word(n, i) == Word(n / TWO_64, i - 1)
  {
  }

  lemma SplitLow(n: nat)
    ensures n == Below(n / TWO_64, n % TWO_64)
  {
  }

  /** The four lowest words are the number modulo 2^256. */
  lemma FourWords(n: nat)
    ensures n == LimbValue([Word(n, 0), Word(n, 1), Word(n, 2), Word(n, 3)]) +
        TWO_256 * (n / TWO_64 / TWO_64 / TWO_64 / TWO_64)
  {
    var n1, n2, n3 := n / TWO_64, n / TWO_64 / TWO_64, n / TWO_64 / TWO_64 / TWO_64;
    WordsAre(n);
    SplitLow(n);
    SplitLow(n1);
    SplitLow(n2);
    SplitLow(n3);
  }

  lemma WordsAre(n: nat)
    ensures Word(n, 0) == n % TWO_64 && Word(n, 1) == n / TWO_64 % TWO_64
    ensures Word(n, 2) == n / TWO_64 / TWO_64 % TWO_64 && Word(n, 3) == n / TWO_64 / TWO_64 / TWO_64 % TWO_64
  {
    var n1, n2, n3 := n / TWO_64, n / TWO_64 / TWO_64, n / TWO_64 / TWO_64 / TWO_64;
    WordStep(n, 0);
    WordStep(n, 1);
    WordStep(n1, 0);
    WordStep(n, 2);
    WordStep(n1, 1);
    WordStep(n2, 0);
    WordStep(n, 3);
    WordStep(n1, 2);
    WordStep(n2, 1);
    WordStep(n3, 0);
  }

  lemma LowWords(n: nat)
    ensures LimbValue([Word(n, 0), Word(n, 1), Word(n, 2), Word(n, 3)]) == n % TWO_256
  {
    FourWords(n);
    LimbValueBound([Word(n, 0), Word(n, 1), Word(n, 2), Word(n, 3)]);
  }

  function Magnitude(x: int): nat {
    if x < 0 then -x else x
  }

  /** The four limbs of a big integer: its magnitude modulo 2^256. */
  method BiginttoU64_256(x: int) returns (out: Limbs)
    ensures LimbValue(out) == Magnitude(x) % TWO_256
    ensures 0 <= x < TWO_256 ==> LimbValue(out) == x
  {
    var o := new U64[4];
    var in64 := Bits(Magnitude(x));
    if |in64| < 4 {
      var i := 0;
      while i < |in64|
        invariant 0 <= i <= |in64| < 4
        invariant forall j :: 0 <= j < i ==> o[j] == Word(Magnitude(x), j)
      {
        o[i] := in64[i];
        i := i + 1;
      }
      var j := |in64|;
      while j < 4
        invariant |in64| <= j <= 4
        invariant forall t :: 0 <= t < j ==> o[t] == Word(Magnitude(x), t)
      {
        o[j] := 0;
        j := j + 1;
      }
    } else {
      o[0] := in64[0];
      o[1] := in64[1];
      o[2] := in64[2];
      o[3] := in64[3];
    }
    LowWords(Magnitude(x));
    out := o[..];
    assert out == [Word(Magnitude(x), 0), Word(Magnitude(x), 1), Word(Magnitude(x), 2), Word(Magnitude(x), 3)];
  }

  method U64toBigint_256(l: Limbs) returns (out: int)
    ensures out == LimbValue(l)
  {
    out := l[3];
    out := out * TWO_64;
    out := out + l[2];
    out := out * TWO_64;
    out := out + l[1];
    out := out * TWO_64;
    out := out + l[0];
  }

  /** Bytes shifted into limbs and written out again. */
  function Bytetostring_256(a: Bytes): Bytes
    requires |a| == 32
  {
    U64toByte_256([Shifted(a[24..]), Shifted(a[16..24]), Shifted(a[8..16]), Shifted(a[..8])])
  }

  /** Eight bytes shifted to their places and joined by or; as the places do
      not overlap, the or is a sum. */
  function Shifted(a: Bytes): U64
    requires |a| == 8
  {
    (a[0] as int) * 0x100_0000_0000_0000 + (a[1] as int) * 0x1_0000_0000_0000 + (a[2] as int) * 0x100_0000_0000
    + (a[3] as int) * 0x1_0000_0000 + (a[4] as int) * 0x100_0000 + (a[5] as int) * 0x1_0000
    + (a[6] as int) * 0x100 + a[7]
  }

  lemma FromBytesStep(a: Bytes, i: nat)
    requires i < |a|
    ensures FromBytes(a[..i + 1]) == 256 * FromBytes(a[..i]) + a[i]
  {
    assert a[..i + 1][..i] == a[..i];
  }

  lemma HighBytes(a: Bytes)
    requires |a| == 8
    ensures FromBytes(a[..4]) == (a[0] as int) * 0x100_0000 + (a[1] as int) * 0x1_0000 + (a[2] as int) * 0x100 + a[3]
  {
    FromBytesStep(a, 0);
    FromBytesStep(a, 1);
    FromBytesStep(a, 2);
    FromBytesStep(a, 3);
    assert a[..0] == [];
  }

  lemma ShiftedIsBigEndian(a: Bytes)
    requires |a| == 8
    ensures Shifted(a) == FromBytes(a)
  {
    HighBytes(a);
    FromBytesStep(a, 4);
    FromBytesStep(a, 5);
    FromBytesStep(a, 6);
    FromBytesStep(a, 7);
    assert a[..8] == a;
  }

  /** The conversion leaves a digest as it is. */
  lemma BytetostringIsIdentity(a: Bytes)
    requires |a| == 32
    ensures Bytetostring_256(a) == a
  {
    ShiftedIsBigEndian(a[24..]);
    ShiftedIsBigEndian(a[16..24]);
    ShiftedIsBigEndian(a[8..16]);
    ShiftedIsBigEndian(a[..8]);
    assert a[24..] == a[24..32];
    LimbsOfBytes(a);
    assert a[..32] == a;
  }
}
