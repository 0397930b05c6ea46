/**
 The Internet checksum of RFC 1071 as computed by inf22-1.c, inf22-1-1.c and
 inf22-1-ver1.c: words are read in the host's byte order into a 32-bit accumulator, the
 accumulator is folded twice to 16 bits, and the complement is returned.
 */
module InternetChecksum {
  type Byte = x: int | 0 <= x < 256
  type Word = x: int | 0 <= x < 0x1_0000

  datatype ByteOrder = LittleEndian | BigEndian

  const UINT_RANGE := 0x1_0000_0000

  // ----- the definition in RFC 1071 -----

  /** One's complement addition of 16-bit words: the carry goes back in at the low end. */
  function EndAround(a: Word, b: Word): Word {
    if a + b > 0xFFFF then a + b - 0xFFFF else a + b
  }

  /** The 16-bit word made of two consecutive bytes in memory. */
  function Join(order: ByteOrder, first: Byte, second: Byte): Word {
    match order
    case LittleEndian => first + 256 * second
    case BigEndian => 256 * first + second
  }

  function WordAt(order: ByteOrder, s: seq<Byte>, i: nat): Word
    requires 2 * i + 1 < |s|
  {
    Join(order, s[2*i], s[2*i+1])
  }

  /** The one's complement sum of the first n words. */
  function OnesSum(order: ByteOrder, s: seq<Byte>, n: nat): Word
    requires 2 * n <= |s|
  {
    if n == 0 then 0 else EndAround(OnesSum(order, s, n-1), WordAt(order, s, n-1))
  }

  /** The checksum of section 1: an odd last byte is paired with a zero byte. */
  function Rfc(order: ByteOrder, s: seq<Byte>): Word {
    if |s| % 2 == 0 then 0xFFFF - OnesSum(order, s, |s| / 2)
    else 0xFFFF - OnesSum(order, s + [0], |s| / 2 + 1)
  }

  // ----- ordinary sums and their residues modulo 2^16 - 1 -----

  function WordSum(order: ByteOrder, s: seq<Byte>, n: nat): (sum: nat)
    requires 2 * n <= |s|
    ensures sum <= n * 0xFFFF
  {
    if n == 0 then 0 else WordSum(order, s, n-1) + WordAt(order, s, n-1)
  }

  /** What the programs add up: all whole words, then an odd last byte as it is. */
  function Sum(order: ByteOrder, s: seq<Byte>): (sum: nat)
    ensures sum <= |s| / 2 * 0xFFFF + (if |s| % 2 == 1 then 0xFF else 0)
  {
    WordSum(order, s, |s| / 2) + if |s| % 2 == 1 then s[|s|-1] else 0
  }

  /** The residue of an ordinary sum; 0 stands for 0 only, other multiples give 0xFFFF. */
  function Residue(sum: nat): Word {
    if sum == 0 then 0 else (sum - 1) % 0xFFFF + 1
  }

  lemma ResidueIs(sum: nat, r: Word, k: int)
    requires sum == r + 0xFFFF * k && (r == 0 <==> sum == 0)
    ensures Residue(sum) == r
  {
  }

  lemma ResidueOf(sum: nat) returns (k: nat)
    ensures sum == Residue(sum) + 0xFFFF * k
    ensures Residue(sum) == 0 <==> sum == 0
  {
    k := if sum == 0 then 0 else (sum - 1) / 0xFFFF;
  }

  lemma ResidueAdds(a: nat, b: nat)
    ensures Residue(a + b) == EndAround(Residue(a), Residue(b))
  {
    var j := ResidueOf(a);
    var k := ResidueOf(b);
    var r := EndAround(Residue(a), Residue(b));
    ResidueIs(a + b, r, if Residue(a) + Residue(b) > 0xFFFF then j + k + 1 else j + k);
  }

  lemma {:induction false} OnesSumIsResidue(order: ByteOrder, s: seq<Byte>, n: nat)
    requires 2 * n <= |s|
    ensures OnesSum(order, s, n) == Residue(WordSum(order, s, n))
  {
    if n > 0 {
      OnesSumIsResidue(order, s, n-1);
      var w := WordAt(order, s, n-1);
      ResidueIs(w, w, 0);
      ResidueAdds(WordSum(order, s, n-1), w);
    }
  }

  // ----- the folds -----

  /** The high half is added to the low half, the carry of that addition once more, and the low 16 bits are inverted. */
  function Finish(sum: nat): Word
    requires sum < UINT_RANGE
  {
    var once := sum / 0x1_0000 + sum % 0x1_0000;
    var twice := once + once / 0x1_0000;
    (UINT_RANGE - 1 - twice) % 0x1_0000
  }

  /** Two folds of any 32-bit accumulator leave the complement of its residue. */
  lemma FoldsGiveResidue(sum: nat)
    requires sum < UINT_RANGE
    ensures Finish(sum) == 0xFFFF - Residue(sum)
  {
    var hi, lo := sum / 0x1_0000, sum % 0x1_0000;
    var once := hi + lo;
    if once < 0x1_0000 {
      ResidueIs(sum, once, hi);
    } else {
      ResidueIs(sum, once - 0xFFFF, hi + 1);
    }
  }

  // ----- the programs -----

  function Truncated(sum: nat): nat {
    sum % UINT_RANGE
  }

  /** What all three programs return. */
  function Checksum(order: ByteOrder, s: seq<Byte>): Word {
    0xFFFF - Residue(Truncated(Sum(order, s)))
  }

  lemma TruncatedAdds(a: nat, b: nat)
    ensures Truncated(Truncated(a) + b) == Truncated(a + b)
  {
  }

  /** One turn of either loop. */
  lemma AddsWord(order: ByteOrder, s: seq<Byte>, i: nat, sum: nat)
    requires 2 * i + 1 < |s| && sum == Truncated(WordSum(order, s, i))
    ensures Truncated(sum + WordAt(order, s, i)) == Truncated(WordSum(order, s, i+1))
  {
    TruncatedAdds(WordSum(order, s, i), WordAt(order, s, i));
  }

  /** After the words: an odd last byte, the folds and the complement. */
  lemma Finishes(order: ByteOrder, s: seq<Byte>, sum: nat)
    requires sum == Truncated(WordSum(order, s, |s| / 2))
    ensures |s| % 2 == 0 ==> Finish(sum) == Checksum(order, s)
    ensures |s| % 2 == 1 ==> Finish(Truncated(sum + s[|s|-1])) == Checksum(order, s)
  {
    if |s| % 2 == 1 {
      TruncatedAdds(WordSum(order, s, |s| / 2), s[|s|-1]);
    }
    FoldsGiveResidue(Truncated(Sum(order, s)));
  }

  /** inf22-1.c: the pointer buf walks over the words. */
  method ChecksumWalking(order: ByteOrder, b: array<Byte>, length: int) returns (result: Word)
    requires length <= b.Length
    ensures result == Checksum(order, b[..if length < 0 then 0 else length])
  {
    var buf, sum, len := 0, 0, length;
    ghost var s := b[..if length < 0 then 0 else length];
    ghost var i: nat := 0;
    while len > 1
      invariant buf == 2 * i && len == length - buf && (len >= 0 || i == 0)
      invariant sum == Truncated(WordSum(order, s, i))
    {
      AddsWord(order, s, i, sum);
      assert WordAt(order, s, i) == Join(order, b[buf], b[buf+1]);
      sum := Truncated(sum + Join(order, b[buf], b[buf+1]));
      buf := buf + 2;
      len := len - 2;
      i := i + 1;
    }
    Finishes(order, s, sum);
    if len == 1 {
      sum := Truncated(sum + b[buf]);
    }
    result := Finish(sum);
  }

  /** size / 2 in C, which rounds towards zero */
  function Halved(size: int): (h: int)
    ensures size >= 0 ==> h == size / 2 && 2 * h <= size <= 2 * h + 1
    ensures size < 0 ==> h <= 0
  {
    if size < 0 then -(-size / 2) else size / 2
  }

  /** inf22-1-1.c: the words are indexed; size / 2 and size % 2 are the operators of C. */
  method ComputeCheckSum(order: ByteOrder, b: array<Byte>, size: int) returns (result: Word)
    requires size <= b.Length
    ensures result == Checksum(order, b[..if size < 0 then 0 else size])
  {
    var sum, i := 0, 0;
    var newSize := Halved(size);
    ghost var s := b[..if size < 0 then 0 else size];
    while i < newSize
      invariant 0 <= i && (size >= 0 ==> i <= newSize) && (size < 0 ==> i == 0)
      invariant sum == Truncated(WordSum(order, s, i))
    {
      AddsWord(order, s, i, sum);
      assert WordAt(order, s, i) == Join(order, b[2*i], b[2*i+1]);
      sum := Truncated(sum + Join(order, b[2*i], b[2*i+1]));
      i := i + 1;
    }
    Finishes(order, s, sum);
    if size > 0 && size % 2 == 1 {
      sum := Truncated(sum + b[size-1]);
    }
    result := Finish(sum);
  }

  // ----- when the programs meet the definition -----

  /** What the definition adds for an odd last byte and the programs leave out: big-endian hosts read it low. */
  function Missing(order: ByteOrder, s: seq<Byte>): nat {
    if |s| % 2 == 1 && order.BigEndian? then 255 * s[|s|-1] as int else 0
  }

  lemma OddByte(order: ByteOrder, s: seq<Byte>)
    requires |s| % 2 == 1
    ensures WordSum(order, s + [0], |s| / 2 + 1) == Sum(order, s) + Missing(order, s)
  {
    SameWords(order, s, s + [0], |s| / 2);
  }

  lemma {:induction false} SameWords(order: ByteOrder, s: seq<Byte>, t: seq<Byte>, n: nat)
    requires 2 * n <= |s| && 2 * n <= |t| && s[..2*n] == t[..2*n]
    ensures WordSum(order, s, n) == WordSum(order, t, n)
  {
    if n > 0 {
      assert s[..2*n-2] == s[..2*n][..2*n-2] == t[..2*n-2];
      assert s[2*n-2] == s[..2*n][2*n-2] == t[2*n-2] && s[2*n-1] == s[..2*n][2*n-1] == t[2*n-1];
      SameWords(order, s, t, n-1);
    }
  }

  /** Modulo 2^16 - 1 every wrap of the accumulator loses one. */
  lemma SameResidueExactly(sum: nat, missing: nat)
    requires sum < 0x4000_0000 * 0xFFFF && missing <= 255 * 255
    ensures Residue(Truncated(sum)) == Residue(sum + missing) <==>
      var lost := sum / UINT_RANGE + missing;
      lost == 0 || (lost == 0xFFFF && Truncated(sum) != 0)
  {
    var wraps := sum / UINT_RANGE;
    var j := ResidueOf(Truncated(sum));
    var k := ResidueOf(sum + missing);
    assert sum == Truncated(sum) + 0x1_0001 * 0xFFFF * wraps + wraps;
    assert wraps < 0x4000;
  }

  lemma RfcIsResidue(order: ByteOrder, s: seq<Byte>)
    ensures Rfc(order, s) == 0xFFFF - Residue(Sum(order, s) + Missing(order, s))
  {
    if |s| % 2 == 0 {
      OnesSumIsResidue(order, s, |s| / 2);
    } else {
      OnesSumIsResidue(order, s + [0], |s| / 2 + 1);
      OddByte(order, s);
    }
  }

  /** What the result lacks modulo 2^16 - 1: one for each wrap, and the odd byte's missing part. */
  function Lost(order: ByteOrder, s: seq<Byte>): nat {
    Sum(order, s) / UINT_RANGE + Missing(order, s)
  }

  /** For every host and every int length the programs compute the checksum of RFC 1071 exactly when nothing is lost. */
  lemma CorrectExactly(order: ByteOrder, s: seq<Byte>)
    requires |s| < 0x8000_0000
    ensures Checksum(order, s) == Rfc(order, s)
       <==> Lost(order, s) == 0 || (Lost(order, s) == 0xFFFF && Truncated(Sum(order, s)) != 0)
  {
    RfcIsResidue(order, s);
    SameResidueExactly(Sum(order, s), Missing(order, s));
  }

  /** On a little-endian host, and for an even length on any, that is when the accumulator does not wrap. */
  lemma CorrectWithoutWrap(order: ByteOrder, s: seq<Byte>)
    requires |s| < 0x8000_0000 && (order == LittleEndian || |s| % 2 == 0)
    ensures Checksum(order, s) == Rfc(order, s) <==> Sum(order, s) < UINT_RANGE
  {
    CorrectExactly(order, s);
  }

  /** On a big-endian host an odd length whose sum does not wrap is right only when the last byte is zero. */
  lemma OddOnBigEndian(s: seq<Byte>)
    requires |s| < 0x8000_0000 && |s| % 2 == 1 && Sum(BigEndian, s) < UINT_RANGE
    ensures Checksum(BigEndian, s) == Rfc(BigEndian, s) <==> s[|s|-1] == 0
  {
    CorrectExactly(BigEndian, s);
  }

  lemma NoWrap(order: ByteOrder, s: seq<Byte>)
    requires Sum(order, s) < UINT_RANGE
    ensures Checksum(order, s) == 0xFFFF - Residue(Sum(order, s))
  {
    assert Truncated(Sum(order, s)) == Sum(order, s);
  }

  /** The example of section 3 of RFC 1071, whose sum is 0xDDF2, on hosts of either byte order. */
  lemma SectionThree()
    ensures var s: seq<Byte> := [0x00, 0x01, 0xF2, 0x03, 0xF4, 0xF5, 0xF6, 0xF7];
      && Rfc(BigEndian, s) == Checksum(BigEndian, s) == 0xFFFF - 0xDDF2
      && Rfc(LittleEndian, s) == Checksum(LittleEndian, s) == 0xFFFF - 0xF2DD
  {
    var s: seq<Byte> := [0x00, 0x01, 0xF2, 0x03, 0xF4, 0xF5, 0xF6, 0xF7];
    assert WordSum(BigEndian, s, 2) == 0x0001 + 0xF203;
    assert WordSum(BigEndian, s, 4) == 0x0001 + 0xF203 + 0xF4F5 + 0xF6F7;
    assert WordSum(LittleEndian, s, 2) == 0x0100 + 0x03F2;
    assert WordSum(LittleEndian, s, 4) == 0x0100 + 0x03F2 + 0xF5F4 + 0xF7F6;
    CorrectExactly(BigEndian, s);
    CorrectExactly(LittleEndian, s);
  }

  /** No buffer of up to 131074 bytes wraps, and 131075 bytes of 0xFF do. */
  lemma CorrectWhenShort(order: ByteOrder, s: seq<Byte>)
    requires |s| <= 131074
    ensures Sum(order, s) < UINT_RANGE
    ensures Checksum(order, s) == Rfc(order, s) <==> Missing(order, s) == 0
  {
    CorrectExactly(order, s);
  }

  lemma {:induction false} AllOnes(order: ByteOrder, s: seq<Byte>, n: nat)
    requires 2 * n <= |s| && forall i | 0 <= i < |s| :: s[i] == 0xFF
    ensures WordSum(order, s, n) == n * 0xFFFF
  {
    if n > 0 {
      AllOnes(order, s, n-1);
    }
  }

  lemma Wraps(order: ByteOrder, s: seq<Byte>)
    requires |s| == 131075 && forall i | 0 <= i < |s| :: s[i] == 0xFF
    ensures Checksum(order, s) != Rfc(order, s)
  {
    AllOnes(order, s, |s| / 2);
    CorrectExactly(order, s);
  }

  // ----- RFC 1071, sections 1 and 2 -----

  /** The bytes of w as the host stores them. */
  function Split(order: ByteOrder, w: Word): (Byte, Byte) {
    match order
    case LittleEndian => (w % 256, w / 256)
    case BigEndian => (w / 256, w % 256)
  }

  function Insert(order: ByteOrder, s: seq<Byte>, field: nat, w: Word): (t: seq<Byte>)
    requires 2 * field + 1 < |s|
    ensures |t| == |s|
  {
    s[2*field := Split(order, w).0][2*field+1 := Split(order, w).1]
  }

  lemma {:induction false} InsertAdds(order: ByteOrder, s: seq<Byte>, field: nat, w: Word, n: nat)
    requires 2 * field + 1 < |s| && 2 * n <= |s| && WordAt(order, s, field) == 0
    ensures WordSum(order, Insert(order, s, field, w), n)
         == WordSum(order, s, n) + if field < n then w as int else 0
  {
    if n > 0 {
      InsertAdds(order, s, field, w, n-1);
      var t := Insert(order, s, field, w);
      if field == n - 1 {
        assert WordAt(order, t, n-1) == w;
      } else {
        assert t[2*n-2] == s[2*n-2] && t[2*n-1] == s[2*n-1];
      }
    }
  }

  lemma SumWithField(order: ByteOrder, s: seq<Byte>, field: nat, w: Word)
    requires 2 * field + 1 < |s| && WordAt(order, s, field) == 0
    ensures Sum(order, Insert(order, s, field, w)) == Sum(order, s) + w
  {
    InsertAdds(order, s, field, w, |s| / 2);
    var t := Insert(order, s, field, w);
    assert |s| % 2 == 1 ==> t[|s|-1] == s[|s|-1];
  }

  lemma NegativeZeroExactly(sum: nat, w: Word)
    ensures Residue(sum + w) == 0xFFFF
       <==> w == 0xFFFF - Residue(sum) || (Residue(sum) == 0xFFFF && w == 0xFFFF)
  {
    var k := ResidueOf(sum);
    var j := ResidueOf(sum + w);
  }

  /**
   A receiver that sums a buffer with w in its zeroed checksum field gets 0 exactly when w
   is the checksum of that buffer, or the other representation of zero, provided that its
   accumulator does not wrap, as with up to 131074 bytes.
   */
  lemma VerifiesExactly(order: ByteOrder, s: seq<Byte>, field: nat, w: Word)
    requires 2 * field + 1 < |s| && WordAt(order, s, field) == 0
    requires Sum(order, Insert(order, s, field, w)) < UINT_RANGE
    ensures Checksum(order, Insert(order, s, field, w)) == 0
       <==> w == Checksum(order, s) || (Checksum(order, s) == 0 && w == 0xFFFF)
  {
    SumWithField(order, s, field, w);
    NoWrap(order, s);
    NoWrap(order, Insert(order, s, field, w));
    NegativeZeroExactly(Sum(order, s), w);
  }

  function Swap(w: Word): Word {
    256 * (w % 256) + w / 256
  }

  function SwapWords(s: seq<Byte>): (t: seq<Byte>)
    requires |s| % 2 == 0
    ensures |t| == |s|
  {
    seq(|s|, i requires 0 <= i < |s| => if i % 2 == 0 then s[i+1] else s[i-1])
  }

  /** Modulo 2^16 - 1, swapping the bytes multiplies by 256. */
  lemma SwapIs(w: Word)
    ensures Swap(w) == 256 * w as int - 0xFFFF * (w / 256)
    ensures Swap(w) == 0 <==> w == 0
    ensures Swap(0xFFFF - w) == 0xFFFF - Swap(w)
  {
  }

  lemma SwappedWord(order: ByteOrder, s: seq<Byte>, i: nat)
    requires |s| % 2 == 0 && 2 * i + 1 < |s|
    ensures WordAt(order, SwapWords(s), i) == Swap(WordAt(order, s, i))
  {
  }

  lemma {:induction false} SwapSum(order: ByteOrder, s: seq<Byte>, n: nat) returns (k: int)
    requires |s| % 2 == 0 && 2 * n <= |s|
    ensures WordSum(order, SwapWords(s), n) == 256 * WordSum(order, s, n) - 0xFFFF * k
    ensures WordSum(order, SwapWords(s), n) == 0 <==> WordSum(order, s, n) == 0
  {
    if n == 0 {
      k := 0;
    } else {
      var j := SwapSum(order, s, n-1);
      SwappedWord(order, s, n-1);
      var w := WordAt(order, s, n-1);
      SwapIs(w);
      k := j + w / 256;
    }
  }

  lemma SwappedResidue(sum: nat, swapped: nat, k: int)
    requires swapped == 256 * sum - 0xFFFF * k && (swapped == 0 <==> sum == 0)
    ensures Residue(swapped) == Swap(Residue(sum))
  {
    var j := ResidueOf(sum);
    SwapIs(Residue(sum));
    ResidueIs(swapped, Swap(Residue(sum)), 256 * j - k + Residue(sum) / 256);
  }

  /** Swapping the bytes of every word swaps the bytes of the checksum. */
  lemma ByteOrderIndependence(order: ByteOrder, s: seq<Byte>)
    requires |s| % 2 == 0 && Sum(order, s) < UINT_RANGE && Sum(order, SwapWords(s)) < UINT_RANGE
    ensures Checksum(order, SwapWords(s)) == Swap(Checksum(order, s))
  {
    NoWrap(order, s);
    NoWrap(order, SwapWords(s));
    var k := SwapSum(order, s, |s| / 2);
    SwappedResidue(Sum(order, s), Sum(order, SwapWords(s)), k);
    SwapIs(Residue(Sum(order, s)));
  }

  lemma {:induction false} OtherHost(s: seq<Byte>, n: nat)
    requires |s| % 2 == 0 && 2 * n <= |s|
    ensures WordSum(BigEndian, s, n) == WordSum(LittleEndian, SwapWords(s), n)
  {
    if n > 0 {
      OtherHost(s, n-1);
      assert WordAt(BigEndian, s, n-1) == WordAt(LittleEndian, SwapWords(s), n-1);
    }
  }

  lemma OtherHostChecksum(s: seq<Byte>)
    requires |s| % 2 == 0
    ensures Sum(BigEndian, s) == Sum(LittleEndian, SwapWords(s))
    ensures Checksum(BigEndian, s) == Checksum(LittleEndian, SwapWords(s))
  {
    OtherHost(s, |s| / 2);
  }

  lemma SwapSplit(w: Word)
    ensures Split(BigEndian, Swap(w)) == Split(LittleEndian, w)
  {
  }

  /** So hosts of both byte orders store the same two bytes into the packet. */
  lemma HostsAgree(s: seq<Byte>)
    requires |s| % 2 == 0 && Sum(BigEndian, s) < UINT_RANGE && Sum(LittleEndian, s) < UINT_RANGE
    ensures Split(BigEndian, Checksum(BigEndian, s)) == Split(LittleEndian, Checksum(LittleEndian, s))
  {
    OtherHostChecksum(s);
    ByteOrderIndependence(LittleEndian, s);
    SwapSplit(Checksum(LittleEndian, s));
  }
}
