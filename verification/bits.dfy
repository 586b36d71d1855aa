/**
 * Bytes and the reference meaning of a packed ±1 buffer.
 *
 * A `uint8_t` is modelled by its eight bits: element s of a `Byte` is the bit
 * of weight 2^s, and the C bitwise operators act on each bit separately.
 * `Unpack` reads a byte buffer through the MSB-first index map of `Layout`
 * into one boolean per bit; a set bit stands for +1 and a clear bit for -1.
 * The XNOR-popcount kernel is specified against the counts defined here on
 * those booleans (`Ones`, `Matches`, `Dot`), which look at one position at a
 * time and never at bytes, lanes or chunks.
 */
module Bits {
  import Layout

  const BYTE_ZERO: seq<bool> := [false, false, false, false, false, false, false, false]

  /** An 8-bit byte; element s is the bit of weight 2^s. */
  type Byte = x: seq<bool> | |x| == 8 witness BYTE_ZERO

  /** `~x` */
  function Not(x: Byte): Byte
  {
    seq(8, s requires 0 <= s < 8 => !x[s])
  }

  /** `x & y` */
  function And(x: Byte, y: Byte): Byte
  {
    seq(8, s requires 0 <= s < 8 => x[s] && y[s])
  }

  /** `x | y` */
  function Or(x: Byte, y: Byte): Byte
  {
    seq(8, s requires 0 <= s < 8 => x[s] || y[s])
  }

  /** `x ^ y` */
  function Xor(x: Byte, y: Byte): Byte
  {
    seq(8, s requires 0 <= s < 8 => x[s] != y[s])
  }

  /** `(b ? 1 : 0) << s`: the byte whose only possibly set bit is bit s, set when b holds. */
  function BitAtShift(b: bool, s: int): Byte
    requires 0 <= s < 8
  {
    seq(8, t requires 0 <= t < 8 => b && t == s)
  }

  /** The bits of one byte, most significant first. */
  function ByteBits(x: Byte): (v: seq<bool>)
    ensures |v| == 8
  {
    [x[7], x[6], x[5], x[4], x[3], x[2], x[1], x[0]]
  }

  /**
   * The bits of a packed buffer in index order, byte after byte, each byte
   * most significant bit first: bit i is shift 7 - i % 8 of byte i / 8
   * (`UnpackIndex`), which is where `GetBlockIndex` and `GetBitIndexInBlock`
   * put it (`UnpackIndexMap`).
   */
  function Unpack(buf: seq<Byte>): (v: seq<bool>)
    ensures |v| == 8 * |buf|
  {
    if |buf| == 0 then [] else Unpack(buf[..|buf| - 1]) + ByteBits(buf[|buf| - 1])
  }

  /** A bit counted as 0 or 1. */
  function Bit01(b: bool): nat
  {
    if b then 1 else 0
  }

  /** Number of set positions among 0 .. n-1. */
  function Ones(v: seq<bool>, n: nat): (r: nat)
    requires n <= |v|
    ensures r <= n
  {
    if n == 0 then 0 else Ones(v, n - 1) + Bit01(v[n - 1])
  }

  /** Number of positions among 0 .. n-1 where `u` and `v` agree. */
  function Matches(u: seq<bool>, v: seq<bool>, n: nat): (r: nat)
    requires n <= |u| && n <= |v|
    ensures r <= n
  {
    if n == 0 then 0 else Matches(u, v, n - 1) + (if u[n - 1] == v[n - 1] then 1 else 0)
  }

  /** The ±1 value a bit stands for. */
  function Sign(bit: bool): int
  {
    if bit then 1 else -1
  }

  /** The plain ±1 dot product over positions 0 .. n-1. */
  function Dot(u: seq<bool>, v: seq<bool>, n: nat): int
    requires n <= |u| && n <= |v|
  {
    if n == 0 then 0 else Dot(u, v, n - 1) + Sign(u[n - 1]) * Sign(v[n - 1])
  }

  /** Bytewise `~(x ^ w)`, the XNOR the kernel takes of two chunks. */
  function XnorBytes(x: seq<Byte>, w: seq<Byte>): (z: seq<Byte>)
    requires |x| == |w|
    ensures |z| == |x|
  {
    seq(|x|, k requires 0 <= k < |x| => Not(Xor(x[k], w[k])))
  }

  /** Set bits of one byte. */
  function PopcountByte(x: Byte): nat
  {
    Ones(x, 8)
  }

  /** Set bits of the bytes 0 .. n-1 of `s`, byte by byte (what a hardware popcount counts). */
  function PopcountBytes(s: seq<Byte>, n: nat): nat
    requires n <= |s|
  {
    if n == 0 then 0 else PopcountBytes(s, n - 1) + PopcountByte(s[n - 1])
  }

  // ---------------------------------------------------------------------
  // Bytes and bits

  /** Bit i of the buffer is shift 7 - i % 8 of byte i / 8. */
  lemma {:induction false} UnpackIndex(buf: seq<Byte>, i: nat)
    requires i < 8 * |buf|
    ensures Unpack(buf)[i] == buf[i / 8][7 - i % 8]
  {
    var n := |buf| - 1;
    assert Unpack(buf) == Unpack(buf[..n]) + ByteBits(buf[n]);
    if i < 8 * n {
      UnpackIndex(buf[..n], i);
      assert buf[..n][i / 8] == buf[i / 8];
    } else {
      var j := i - 8 * n;
      assert i / 8 == n && i % 8 == j;
    }
  }

  /** `Unpack` reads bit i where the source's index helpers place it. */
  lemma UnpackIndexMap(buf: seq<Byte>, i: nat)
    requires i < 8 * |buf|
    ensures 0 <= Layout.GetBlockIndex(i) < |buf|
    ensures 0 <= Layout.GetBitIndexInBlock(i) < 8
    ensures Unpack(buf)[i] == buf[Layout.GetBlockIndex(i)][Layout.GetBitIndexInBlock(i)]
  {
    UnpackIndex(buf, i);
  }

  /** Bit 8k + j is shift 7 - j of byte k. */
  lemma UnpackByte(buf: seq<Byte>, k: nat, j: nat)
    requires k < |buf| && j < 8
    ensures Unpack(buf)[8 * k + j] == buf[k][7 - j]
  {
    UnpackIndex(buf, 8 * k + j);
    assert (8 * k + j) / 8 == k && (8 * k + j) % 8 == j;
  }

  /** A buffer of zero bytes unpacks to clear bits only. */
  lemma UnpackZeros(buf: seq<Byte>)
    requires forall k :: 0 <= k < |buf| ==> buf[k] == BYTE_ZERO
    ensures forall i :: 0 <= i < 8 * |buf| ==> !Unpack(buf)[i]
  {
    forall i | 0 <= i < 8 * |buf|
      ensures !Unpack(buf)[i]
    {
      UnpackIndex(buf, i);
    }
  }

  // ---------------------------------------------------------------------
  // Counting: from bits to bytes, lanes and chunks

  /** Set bits among the j most significant bits of `x` (shifts 7 down to 8 - j). */
  function TopBits(x: Byte, j: nat): nat
    requires j <= 8
  {
    if j == 0 then 0 else TopBits(x, j - 1) + Bit01(x[8 - j])
  }

  /** Counting into byte k bit by bit adds its set bits from the top down. */
  lemma {:induction false} OnesPartialByte(buf: seq<Byte>, k: nat, j: nat, n: nat)
    requires k < |buf| && j <= 8 && n == 8 * k + j
    ensures Ones(Unpack(buf), n) == Ones(Unpack(buf), 8 * k) + TopBits(buf[k], j)
  {
    if j > 0 {
      OnesPartialByte(buf, k, j - 1, n - 1);
      UnpackByte(buf, k, j - 1);
      assert 8 * k + (j - 1) == n - 1 && 7 - (j - 1) == 8 - j;
    } else {
      assert n == 8 * k;
    }
  }

  /** Counting a byte's bits from the top down gives its popcount. */
  lemma TopBitsIsPopcount(x: Byte)
    ensures TopBits(x, 8) == PopcountByte(x)
  {
    var c0, c1, c2, c3 := Bit01(x[0]), Bit01(x[1]), Bit01(x[2]), Bit01(x[3]);
    var c4, c5, c6, c7 := Bit01(x[4]), Bit01(x[5]), Bit01(x[6]), Bit01(x[7]);
    assert TopBits(x, 1) == c7;
    assert TopBits(x, 3) == c7 + c6 + c5;
    assert TopBits(x, 5) == c7 + c6 + c5 + c4 + c3;
    assert TopBits(x, 7) == c7 + c6 + c5 + c4 + c3 + c2 + c1;
    assert Ones(x, 1) == c0;
    assert Ones(x, 3) == c0 + c1 + c2;
    assert Ones(x, 5) == c0 + c1 + c2 + c3 + c4;
    assert Ones(x, 7) == c0 + c1 + c2 + c3 + c4 + c5 + c6;
  }

  /** Counting the 8 bits of byte k in index order is the byte's popcount. */
  lemma OnesByteStep(buf: seq<Byte>, k: nat)
    requires k < |buf|
    ensures Ones(Unpack(buf), 8 * k + 8) == Ones(Unpack(buf), 8 * k) + PopcountByte(buf[k])
  {
    OnesPartialByte(buf, k, 8, 8 * k + 8);
    TopBitsIsPopcount(buf[k]);
  }

  /** The index-order count over whole bytes equals the bytewise popcount. */
  lemma {:induction false} OnesIsPopcountBytes(buf: seq<Byte>, m: nat)
    requires m <= |buf|
    ensures Ones(Unpack(buf), 8 * m) == PopcountBytes(buf, m)
  {
    if m > 0 {
      OnesIsPopcountBytes(buf, m - 1);
      OnesByteStep(buf, m - 1);
    }
  }

  /** The popcount of n more bytes, given as their own sequence `x`, extends the count. */
  lemma {:induction false} PopcountBytesSplit(s: seq<Byte>, x: seq<Byte>, p: nat, n: nat)
    requires p + n <= |s| && n <= |x|
    requires forall i :: 0 <= i < n ==> x[i] == s[p + i]
    ensures PopcountBytes(s, p + n) == PopcountBytes(s, p) + PopcountBytes(x, n)
  {
    if n > 0 {
      PopcountBytesSplit(s, x, p, n - 1);
    }
  }

  /** Adding lane i (bytes 8i .. 8i+7) to the popcount of the bytes before it. */
  lemma LanePrefixStep(buf: seq<Byte>, i: nat)
    requires 8 * i + 8 <= |buf|
    ensures PopcountBytes(buf, 8 * i + 8) == PopcountBytes(buf, 8 * i) + PopcountBytes(buf[8 * i..8 * i + 8], 8)
  {
    PopcountBytesSplit(buf, buf[8 * i..8 * i + 8], 8 * i, 8);
  }

  /** Matching bits into byte k bit by bit adds the set bits of the bytes' XNOR from the top down. */
  lemma {:induction false} MatchesPartialByte(a: seq<Byte>, w: seq<Byte>, k: nat, j: nat, n: nat)
    requires k < |a| && k < |w| && j <= 8 && n == 8 * k + j
    ensures Matches(Unpack(a), Unpack(w), n) == Matches(Unpack(a), Unpack(w), 8 * k) + TopBits(Not(Xor(a[k], w[k])), j)
  {
    if j > 0 {
      MatchesPartialByte(a, w, k, j - 1, n - 1);
      UnpackByte(a, k, j - 1);
      UnpackByte(w, k, j - 1);
      assert 8 * k + (j - 1) == n - 1 && 7 - (j - 1) == 8 - j;
    } else {
      assert n == 8 * k;
    }
  }

  /** The 8 bits of byte k match exactly where the XNOR of the two bytes is set. */
  lemma ByteMatchStep(a: seq<Byte>, w: seq<Byte>, k: nat, p: nat, q: nat)
    requires k < |a| && k < |w|
    requires p == 8 * k && q == p + 8
    ensures Matches(Unpack(a), Unpack(w), q) == Matches(Unpack(a), Unpack(w), p) + PopcountByte(Not(Xor(a[k], w[k])))
  {
    MatchesPartialByte(a, w, k, 8, q);
    TopBitsIsPopcount(Not(Xor(a[k], w[k])));
  }

  /**
   * If the first k bytes of `mul` are the XNOR of bytes m .. m+k-1 of the
   * two buffers, their popcount counts the matches of bits p = 8m up to
   * q = 8m + 8k.
   */
  lemma {:induction false} XnorWindow(a: seq<Byte>, w: seq<Byte>, mul: seq<Byte>, m: nat, k: nat, p: nat, q: nat)
    requires m + k <= |a| && m + k <= |w| && k <= |mul|
    requires forall j :: 0 <= j < k ==> mul[j] == Not(Xor(a[m + j], w[m + j]))
    requires p == 8 * m && q == p + 8 * k
    ensures Matches(Unpack(a), Unpack(w), q) == Matches(Unpack(a), Unpack(w), p) + PopcountBytes(mul, k)
  {
    if k > 0 {
      XnorWindow(a, w, mul, m, k - 1, p, q - 8);
      ByteMatchStep(a, w, m + (k - 1), q - 8, q);
      assert mul[k - 1] == Not(Xor(a[m + (k - 1)], w[m + (k - 1)]));
    } else {
      assert q == p;
    }
  }

  /**
   * The bytewise popcount of the XNOR of the c bytes from byte m counts the
   * matches of bits p = 8m up to q = 8m + 8c.
   */
  lemma XnorSliceStep(a: seq<Byte>, w: seq<Byte>, m: nat, c: nat, p: nat, q: nat)
    requires m + c <= |a| && m + c <= |w|
    requires p == 8 * m && q == p + 8 * c
    ensures Matches(Unpack(a), Unpack(w), q)
         == Matches(Unpack(a), Unpack(w), p) + PopcountBytes(XnorBytes(a[m..m + c], w[m..m + c]), c)
  {
    XnorWindow(a, w, XnorBytes(a[m..m + c], w[m..m + c]), m, c, p, q);
  }

  // ---------------------------------------------------------------------
  // Properties of the match count

  /** Only positions below n matter: vectors that agree there have the same count. */
  lemma {:induction false} MatchesFrame(u: seq<bool>, v: seq<bool>, u': seq<bool>, v': seq<bool>, n: nat)
    requires n <= |u| && n <= |v| && n <= |u'| && n <= |v'|
    requires forall i :: 0 <= i < n ==> u[i] == u'[i] && v[i] == v'[i]
    ensures Matches(u, v, n) == Matches(u', v', n)
  {
    if n > 0 {
      MatchesFrame(u, v, u', v', n - 1);
    }
  }

  lemma {:induction false} MatchesSymmetric(u: seq<bool>, v: seq<bool>, n: nat)
    requires n <= |u| && n <= |v|
    ensures Matches(u, v, n) == Matches(v, u, n)
  {
    if n > 0 {
      MatchesSymmetric(u, v, n - 1);
    }
  }

  /** The count reaches n exactly when the operands agree on every position. */
  lemma {:induction false} MatchesAllIff(u: seq<bool>, v: seq<bool>, n: nat)
    requires n <= |u| && n <= |v|
    ensures Matches(u, v, n) == n <==> forall i :: 0 <= i < n ==> u[i] == v[i]
  {
    if n > 0 {
      MatchesAllIff(u, v, n - 1);
    }
  }

  /** The count is 0 exactly when the operands disagree on every position. */
  lemma {:induction false} MatchesNoneIff(u: seq<bool>, v: seq<bool>, n: nat)
    requires n <= |u| && n <= |v|
    ensures Matches(u, v, n) == 0 <==> forall i :: 0 <= i < n ==> u[i] != v[i]
  {
    if n > 0 {
      MatchesNoneIff(u, v, n - 1);
    }
  }

  /** Reading true as +1 and false as -1, twice the matches minus n is the dot product. */
  lemma {:induction false} DotFromMatches(u: seq<bool>, v: seq<bool>, n: nat)
    requires n <= |u| && n <= |v|
    ensures Dot(u, v, n) == 2 * Matches(u, v, n) - n
  {
    if n > 0 {
      DotFromMatches(u, v, n - 1);
    }
  }

  /** Clear positions in both operands add one match each. */
  lemma {:induction false} PaddingNeutral(u: seq<bool>, v: seq<bool>, n: nat, padded: nat)
    requires n <= padded && padded <= |u| && padded <= |v|
    requires forall i :: n <= i < padded ==> !u[i] && !v[i]
    ensures Matches(u, v, padded) == Matches(u, v, n) + (padded - n)
  {
    if padded > n {
      PaddingNeutral(u, v, n, padded - 1);
    }
  }

  /**
   * With both buffers zero beyond bit n, the dot product over the true
   * length n is recovered from the match count over the padded length by
   * subtracting the padding bits' artificial matches.
   */
  lemma PaddedDot(a: seq<Byte>, w: seq<Byte>, n: Layout.Int32)
    requires n >= 0
    requires Layout.AddPaddingToBitSize(n) <= 8 * |a| && Layout.AddPaddingToBitSize(n) <= 8 * |w|
    requires forall i :: n <= i < Layout.AddPaddingToBitSize(n) ==> !Unpack(a)[i] && !Unpack(w)[i]
    ensures Dot(Unpack(a), Unpack(w), n)
         == 2 * (Matches(Unpack(a), Unpack(w), Layout.AddPaddingToBitSize(n)) - (Layout.AddPaddingToBitSize(n) - n)) - n
  {
    PaddingNeutral(Unpack(a), Unpack(w), n, Layout.AddPaddingToBitSize(n));
    DotFromMatches(Unpack(a), Unpack(w), n);
  }
}
