/**
 The checksum of lib/netpackets/src/ipv4.c and src/send_icmp_echo.c (the two
 routines have the same body) against section 1 of RFC 1071.
 */
module InternetChecksum {
  import opened Bytes

  // RFC 1071, section 1

  /** One's complement addition: the carry comes back in at the bottom. */
  function OnesAdd(a: uint16, b: uint16): uint16 {
    if a + b < 0x1_0000 then a + b else a + b - 0xFFFF
  }

  /** The 16-bit words of data; a last odd byte Z is the word [Z,0]. */
  function Words(data: seq<byte>): seq<uint16> {
    if |data| == 0 then []
    else if |data| == 1 then [Word(data[0], 0)]
    else [Word(data[0], data[1])] + Words(data[2..])
  }

  function OnesSum(words: seq<uint16>): uint16 {
    if words == [] then 0 else OnesAdd(words[0], OnesSum(words[1..]))
  }

  function Rfc1071(data: seq<byte>): uint16 {
    0xFFFF - OnesSum(Words(data))
  }

  // What the source computes

  const UINT32_SIZE := 0x1_0000_0000

  /** The unbounded sum of all pairs, plus an odd last byte as a low byte. */
  function Total(data: seq<byte>): nat {
    if |data| == 0 then 0
    else if |data| == 1 then data[0]
    else Word(data[0], data[1]) + Total(data[2..])
  }

  lemma TotalStep(data: seq<byte>)
    requires |data| > 1
    ensures Total(data) == Word(data[0], data[1]) + Total(data[2..])
  {
  }

  /** A 32-bit unsigned value keeps the remainder. */
  function Wrap32(x: nat): uint32 {
    x % UINT32_SIZE
  }

  /** sum >> 16 and sum & 0xFFFF. */
  function High16(x: uint32): uint16 {
    x / 0x1_0000
  }

  function Low16(x: uint32): uint16 {
    x % 0x1_0000
  }

  lemma WrapStep(x: nat, w: nat)
    ensures Wrap32(Wrap32(x) + w) == Wrap32(x + w)
  {
  }

  lemma WrapSmall(x: uint32)
    ensures Wrap32(x) == x
  {
  }

  /** The residue of x modulo 0xFFFF, with 0xFFFF standing for a non-zero
      multiple: what is left when every carry has been brought back in. */
  function Canon(x: nat): uint16 {
    if x <= 0xFFFF then x else Canon(x - 0xFFFF)
  }

  /** The complement of a 32-bit accumulator with all its carries folded in. */
  function ChecksumOf(data: seq<byte>): uint16 {
    0xFFFF - Canon(Wrap32(Total(data)))
  }

  /** The sum from position p on. */
  function TotalFrom(data: seq<byte>, p: nat): nat
    requires p <= |data|
  {
    Total(data[p..])
  }

  lemma TotalFromStart(data: seq<byte>)
    ensures TotalFrom(data, 0) == Total(data) && Wrap32(0) == 0
  {
    assert data[0..] == data;
  }

  lemma TotalFromNext(data: seq<byte>, p: nat)
    requires p + 1 < |data|
    ensures TotalFrom(data, p) == Word(data[p], data[p + 1]) + TotalFrom(data, p + 2)
  {
    TotalStep(data[p..]);
    assert data[p..][2..] == data[p + 2..];
  }

  lemma TotalFromEnd(data: seq<byte>, p: nat)
    requires p <= |data| <= p + 1
    ensures TotalFrom(data, p) == if p < |data| then data[p] else 0
  {
  }

  /** ipv4_checksum and icmp_checksum. Two folds bring every carry back. */
  method Checksum(data: seq<byte>) returns (result: uint16)
    ensures result == ChecksumOf(data)
  {
    hide Wrap32, High16, Low16, Word, Total, TotalFrom, Canon;
    var p: nat, len: nat, sum: uint32 := 0, |data|, 0;
    ghost var exact: nat := 0;
    TotalFromStart(data);
    while len > 1
      invariant p + len == |data|
      invariant sum == Wrap32(exact)
      invariant exact + TotalFrom(data, p) == Total(data)
    {
      var w := Word(data[p], data[p + 1]);
      TotalFromNext(data, p);
      WrapStep(exact, w);
      exact := exact + w;
      sum := Wrap32(sum + w);
      p := p + 2;
      len := len - 2;
    }
    TotalFromEnd(data, p);
    if len == 1 {
      WrapStep(exact, data[p]);
      sum := Wrap32(sum + data[p]);
    }
    assert sum == Wrap32(Total(data));
    TwoFolds(sum);
    sum := High16(sum) + Low16(sum);
    sum := Wrap32(sum + High16(sum));
    result := 0xFFFF - Low16(sum);
  }

  lemma {:induction false} CanonOf(x: nat) returns (q: nat)
    ensures x == 0xFFFF * q + Canon(x) && (x > 0 <==> Canon(x) > 0)
  {
    if x <= 0xFFFF {
      q := 0;
    } else {
      q := CanonOf(x - 0xFFFF);
      q := q + 1;
    }
  }

  lemma MultipleIsZero(q: int, d: int)
    requires d == 0xFFFF * q && -0xFFFF < d < 0xFFFF
    ensures d == 0
  {
  }

  lemma CanonIs(x: nat, q: int, c: nat)
    requires x == 0xFFFF * q + c && 0 < c <= 0xFFFF && x > 0
    ensures Canon(x) == c
  {
    var p := CanonOf(x);
    MultipleIsZero(p as int - q, c - Canon(x));
  }

  lemma Residue(x: nat, q: int, r: nat)
    requires x == 0xFFFF * q + r && r < 0xFFFF
    ensures x % 0xFFFF == r
  {
  }

  lemma SecondFold(s: nat)
    requires s <= 2 * 0xFFFF
    ensures Wrap32(s + s / 0x1_0000) % 0x1_0000 == if s <= 0xFFFF then s else s - 0xFFFF
  {
    assert s / 0x1_0000 == if s <= 0xFFFF then 0 else 1;
    WrapSmall(s + s / 0x1_0000);
  }

  lemma FirstFold(sum: uint32, hi: nat, lo: nat)
    requires sum == 0x1_0000 * hi + lo && hi <= 0xFFFF && lo <= 0xFFFF
    ensures Canon(sum) == if hi + lo <= 0xFFFF then hi + lo else hi + lo - 0xFFFF
  {
    if sum == 0 {
    } else if hi + lo <= 0xFFFF {
      CanonIs(sum, hi, hi + lo);
    } else {
      CanonIs(sum, hi + 1, hi + lo - 0xFFFF);
    }
  }

  /** Exactly two folds are enough for any 32-bit sum. */
  lemma TwoFolds(sum: uint32)
    ensures var once := High16(sum) + Low16(sum);
      Low16(Wrap32(once + High16(once))) == Canon(sum)
  {
    var hi, lo := sum / 0x1_0000, sum % 0x1_0000;
    FirstFold(sum, hi, lo);
    SecondFold(hi + lo);
  }

  lemma CanonAdd(w: uint16, x: nat)
    ensures OnesAdd(w, Canon(x)) == Canon(w + x)
  {
    if x > 0 {
      var q := CanonOf(x);
      var c := w + Canon(x);
      if c <= 0xFFFF {
        CanonIs(w + x, q, c);
      } else {
        CanonIs(w + x, q + 1, c - 0xFFFF);
      }
    }
  }

  lemma WordsStep(data: seq<byte>)
    requires |data| > 1
    ensures OnesSum(Words(data)) == OnesAdd(Word(data[0], data[1]), OnesSum(Words(data[2..])))
  {
    assert Words(data)[1..] == Words(data[2..]);
  }

  lemma {:induction false} OnesSumIsCanon(data: seq<byte>)
    requires |data| % 2 == 0
    ensures OnesSum(Words(data)) == Canon(Total(data))
  {
    if data != [] {
      OnesSumIsCanon(data[2..]);
      WordsStep(data);
      CanonAdd(Word(data[0], data[1]), Total(data[2..]));
    }
  }

  /** The largest sum of n bytes, and so the largest message whose 32-bit
      accumulator cannot overflow: 131074 bytes. */
  lemma {:induction false} TotalBound(data: seq<byte>)
    ensures 2 * Total(data) <= 0xFFFF * |data|
  {
    if |data| > 1 {
      TotalBound(data[2..]);
    }
  }

  /** Every partial sum the loop holds is a prefix of the total, so below the
      bound no addition wraps. */
  lemma {:induction false} TotalSplit(data: seq<byte>, p: nat)
    requires p <= |data| && p % 2 == 0
    ensures Total(data) == Total(data[..p]) + Total(data[p..])
  {
    if p == 0 {
      assert data[0..] == data;
    } else {
      TotalSplit(data[2..], p - 2);
      assert data[2..][..p - 2] == data[..p][2..];
      assert data[2..][p - 2..] == data[p..];
      TotalStep(data);
      TotalStep(data[..p]);
    }
  }

  lemma NoOverflow(data: seq<byte>, p: nat)
    requires |data| <= 131074 && p <= |data| && p % 2 == 0
    ensures Total(data[..p]) <= Total(data) < UINT32_SIZE
  {
    TotalSplit(data, p);
    TotalBound(data);
  }

  lemma ChecksumIsCanon(data: seq<byte>)
    requires |data| <= 131074
    ensures ChecksumOf(data) == 0xFFFF - Canon(Total(data))
  {
    TotalBound(data);
    WrapSmall(Total(data));
  }

  /** For every even length up to 131074 bytes the two folds give exactly the
      RFC 1071 checksum. */
  lemma EvenIsRfc(data: seq<byte>)
    requires |data| % 2 == 0 && |data| <= 131074
    ensures ChecksumOf(data) == Rfc1071(data)
  {
    ChecksumIsCanon(data);
    OnesSumIsCanon(data);
  }

  /** A sum that wrapped in 32 bits, with extra left out of it, still has the
      right residue, and is zero only if it really was. */
  predicate CarriesCancel(sum: nat, extra: nat) {
    (sum / UINT32_SIZE + extra) % 0xFFFF == 0 && (sum == 0 || Wrap32(sum) != 0)
  }

  /** For any even length, however long: the checksum is the RFC's exactly when
      the number of wraps is a multiple of 0xFFFF and the accumulator is zero
      only for an all-zero message. */
  lemma EvenExactly(data: seq<byte>)
    requires |data| % 2 == 0
    ensures ChecksumOf(data) == Rfc1071(data)
       <==> CarriesCancel(Total(data), 0)
  {
    OnesSumIsCanon(data);
    hide Total, Canon, Wrap32, CarriesCancel, OnesSum;
    CanonOfWrappedAnd(Total(data), 0);
  }

  lemma SmallResidue(k: nat, q: int, d: int)
    requires k == 0xFFFF * q + d && -0xFFFF < d < 0xFFFF
    ensures k % 0xFFFF == 0 <==> d == 0
  {
    if d >= 0 {
      Residue(k, q, d);
    } else {
      Residue(k, q - 1, d + 0xFFFF);
    }
  }

  /** 131074 is the last length that cannot overflow: 131076 bytes of 0xFF do,
      and their checksum is not the RFC's. */
  lemma OverflowAfterBound(data: seq<byte>)
    requires |data| == 131076 && forall i | 0 <= i < |data| :: data[i] == 0xFF
    ensures Total(data) > UINT32_SIZE
    ensures ChecksumOf(data) == 1 && Rfc1071(data) == 0
  {
    TotalOfOnes(data);
    OnesSumIsCanon(data);
    CanonIs(Total(data), 65537, 0xFFFF);
    assert Wrap32(Total(data)) == 65534;
  }

  lemma {:induction false} TotalOfOnes(data: seq<byte>)
    requires |data| % 2 == 0 && forall i | 0 <= i < |data| :: data[i] == 0xFF
    ensures 2 * Total(data) == 0xFFFF * |data|
  {
    if data != [] {
      TotalOfOnes(data[2..]);
    }
  }

  // Odd lengths

  lemma LastAsLowByte(data: seq<byte>)
    requires |data| % 2 == 1
    ensures Total(data) == Total(data[..|data| - 1] + [0, data[|data| - 1]])
  {
    var n, z := |data| - 1, data[|data| - 1];
    var padded := data[..n] + [0, z];
    TotalSplit(data, n);
    TotalSplit(padded, n);
    assert data[n..] == [z];
    assert padded[..n] == data[..n] && padded[n..] == [0, z];
    assert Total([0, z]) == z;
  }

  lemma LastAsHighByte(data: seq<byte>)
    requires |data| % 2 == 1
    ensures Words(data) == Words(data + [0])
  {
    if |data| == 1 {
      assert (data + [0])[2..] == [];
    } else {
      LastAsHighByte(data[2..]);
      assert (data + [0])[2..] == data[2..] + [0];
    }
  }

  /** For an odd length the routine adds the last byte as a low byte, so the
      result is the RFC checksum of the data with a zero before the last byte. */
  lemma OddIsRfcOfPadded(data: seq<byte>)
    requires |data| % 2 == 1 && |data| < 131074
    ensures ChecksumOf(data) == Rfc1071(data[..|data| - 1] + [0, data[|data| - 1]])
  {
    LastAsLowByte(data);
    EvenIsRfc(data[..|data| - 1] + [0, data[|data| - 1]]);
  }

  /** The same for any odd length, however long: the sum is that of the padded
      data, so the condition is that of EvenExactly. */
  lemma OddPaddedExactly(data: seq<byte>)
    requires |data| % 2 == 1
    ensures ChecksumOf(data) == Rfc1071(data[..|data| - 1] + [0, data[|data| - 1]])
       <==> CarriesCancel(Total(data), 0)
  {
    hide CarriesCancel, Rfc1071, Total, Canon, Wrap32;
    LastAsLowByte(data);
    EvenExactly(data[..|data| - 1] + [0, data[|data| - 1]]);
  }

  lemma OddTotals(data: seq<byte>, n: nat, z: byte)
    requires |data| == n + 1 && |data| % 2 == 1 && z == data[n]
    ensures Total(data) == Total(data[..n]) + z
    ensures Total(data + [0]) == Total(data[..n]) + 0x100 * (z as int)
  {
    assert n % 2 == 0;
    TotalSplit(data, n);
    assert data[n..] == [z];
    TotalSplit(data + [0], n);
    assert (data + [0])[..n] == data[..n] && (data + [0])[n..] == [z, 0];
    TwoByteTotals(z);
  }

  lemma OddRfc(data: seq<byte>)
    requires |data| % 2 == 1
    ensures Rfc1071(data) == 0xFFFF - Canon(Total(data + [0]))
  {
    var padded := data + [0];
    assert |padded| % 2 == 0;
    LastAsHighByte(data);
    OnesSumIsCanon(padded);
  }

  /** It is the RFC checksum of the data itself exactly when the last byte is 0. */
  lemma OddIsRfcExactly(data: seq<byte>)
    requires |data| % 2 == 1 && |data| < 131074
    ensures ChecksumOf(data) == Rfc1071(data) <==> data[|data| - 1] == 0
  {
    var n, z := |data| - 1, data[|data| - 1];
    OddTotals(data, n, z);
    ChecksumIsCanon(data);
    OddRfc(data);
    CanonOfShiftedByte(Total(data[..n]), z);
  }

  /** A single byte 1 gives 0xFFFE where the RFC has 0xFEFF. */
  lemma OddByteDiffers()
    ensures ChecksumOf([1]) == 0xFFFE && Rfc1071([1]) == 0xFEFF
  {
    ChecksumIsCanon([1]);
    OddRfc([1]);
    TwoByteTotals(1);
    assert [1] + [0] == [1, 0];
  }

  /** For any odd length: the RFC checksum of the data itself exactly when the
      wraps and 255 times the last byte cancel modulo 0xFFFF and the accumulator
      is zero only for an all-zero message. */
  lemma OddExactly(data: seq<byte>)
    requires |data| % 2 == 1
    ensures ChecksumOf(data) == Rfc1071(data) <==> CarriesCancel(Total(data), 0xFF * (data[|data| - 1] as int))
  {
    hide CarriesCancel, Canon, Wrap32, Total, Rfc1071;
    var n, z := |data| - 1, data[|data| - 1];
    OddTotals(data, n, z);
    OddRfc(data);
    CanonOfWrappedAnd(Total(data), 0xFF * (z as int));
  }

  lemma CanonOfWrappedAnd(x: nat, y: nat)
    requires x == 0 ==> y == 0
    ensures Canon(Wrap32(x)) == Canon(x + y) <==> CarriesCancel(x, y)
  {
    var k, w := x / UINT32_SIZE, Wrap32(x);
    assert x == UINT32_SIZE * k + w;
    assert UINT32_SIZE * k == 0xFFFF * (0x1_0001 * k) + k;
    var i := CanonOf(x + y);
    var j := CanonOf(w);
    if x > 0 && w > 0 {
      var q := i - j - 0x1_0001 * k;
      assert k + y == 0xFFFF * q + (Canon(x + y) - Canon(w));
      SmallResidue(k + y, q, Canon(x + y) - Canon(w));
    }
  }

  lemma TwoByteTotals(z: byte)
    ensures Total([0, z]) == z && Total([z, 0]) == 0x100 * (z as int)
  {
  }

  lemma CanonOfShiftedByte(s: nat, z: byte)
    ensures Canon(s + z) == Canon(s + 0x100 * (z as int)) <==> z == 0
  {
    var x, y := s + z, s + 0x100 * (z as int);
    if z > 0 {
      var i := CanonOf(x);
      var j := CanonOf(y);
      SmallResidue(0xFF * (z as int), j - i, Canon(y) - Canon(x));
    }
  }

  // A checksum stored in the data it covers

  /** d with the word w at k, high byte first. */
  function PutWord(d: seq<byte>, k: nat, w: uint16): (r: seq<byte>)
    requires k + 2 <= |d|
    ensures |r| == |d|
  {
    d[k := w / 0x100][k + 1 := w % 0x100]
  }

  lemma TotalPutWord(d: seq<byte>, k: nat, w: uint16)
    requires k + 2 <= |d| && k % 2 == 0
    requires d[k] == d[k + 1] == 0
    ensures Total(PutWord(d, k, w)) == Total(d) + w
  {
    var r := PutWord(d, k, w);
    TotalSplit(d, k);
    TotalSplit(r, k);
    assert r[..k] == d[..k];
    TotalStep(d[k..]);
    TotalStep(r[k..]);
    assert d[k..][2..] == d[k + 2..] == r[k..][2..];
  }

  /** Zeroing the checksum field, computing and storing the checksum in network
      order makes the receiver's computation give 0. */
  lemma SelfVerifies(d: seq<byte>, k: nat)
    requires |d| % 2 == 0 && |d| < 131074 && k + 2 <= |d| && k % 2 == 0
    requires d[k] == d[k + 1] == 0
    ensures ChecksumOf(PutWord(d, k, ChecksumOf(d))) == 0
  {
    var t, c := Total(d), ChecksumOf(d);
    ChecksumIsCanon(d);
    TotalPutWord(d, k, c);
    CanonOfComplement(t);
    ZeroIffCanon(PutWord(d, k, c), t + c);
  }

  lemma ZeroIffCanon(d: seq<byte>, t: nat)
    requires |d| <= 131074 && Total(d) == t
    ensures ChecksumOf(d) == 0 <==> Canon(t) == 0xFFFF
  {
    ChecksumIsCanon(d);
  }

  lemma CanonOfComplement(t: nat)
    ensures Canon(t + (0xFFFF - Canon(t))) == 0xFFFF
  {
    if t > 0 {
      var q := CanonOf(t);
      CanonIs(t + (0xFFFF - Canon(t)), q, 0xFFFF);
    } else {
      CanonIs(0xFFFF, 0, 0xFFFF);
    }
  }

  /** Stored with its bytes swapped instead, the data verifies exactly when the
      two bytes are equal. */
  lemma SwappedVerifiesExactly(d: seq<byte>, k: nat)
    requires |d| % 2 == 0 && |d| < 131074 && k + 2 <= |d| && k % 2 == 0
    requires d[k] == d[k + 1] == 0
    ensures ChecksumOf(PutWord(d, k, Swap16(ChecksumOf(d)))) == 0
       <==> ChecksumOf(d) / 0x100 == ChecksumOf(d) % 0x100
  {
    var t, c := Total(d), ChecksumOf(d);
    var s := Swap16(c);
    ChecksumIsCanon(d);
    TotalPutWord(d, k, s);
    ZeroIffCanon(PutWord(d, k, s), t + s);
    CanonOfSwapped(t, c, s);
  }

  lemma CanonOfSwapped(t: nat, c: uint16, s: uint16)
    requires c == 0xFFFF - Canon(t) && s == Swap16(c)
    ensures Canon(t + s) == 0xFFFF <==> c / 0x100 == c % 0x100
  {
    var h, l := c / 0x100, c % 0x100;
    assert s == c + 0xFF * (l - h);
    if t > 0 {
      var i := CanonOf(t);
      var j := CanonOf(t + s);
      SwapDistance(h, l, j as int - i - 1, Canon(t + s) - 0xFFFF);
    }
  }

  lemma SwapDistance(h: byte, l: byte, q: int, d: int)
    requires 0xFF * (l - h) == 0xFFFF * (q + 1) + d && -0xFFFF < d <= 0
    ensures d == 0 <==> h == l
  {
  }
}
