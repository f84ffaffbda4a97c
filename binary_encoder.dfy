/**
 * Bit-cost encoders: each encoder tells how many bits it needs to store a
 * positive integer (a posting-list gap).
 */
module BinaryEncoder {
  import opened Common

  /** 2 to the power k. */
  function Pow2(k: nat): (p: nat)
    ensures p >= 1
  {
    if k == 0 then 1 else 2 * Pow2(k - 1)
  }

  /**
   * Number of bits of n's plain binary representation. The source obtains it
   * from a floating-point logarithm; the model uses the exact integer length.
   */
  function BitsCount(n: int): (len: nat)
    requires n >= 1
    ensures len >= 1
    ensures Pow2(len - 1) <= n < Pow2(len)
  {
    if n == 1 then 1 else 1 + BitsCount(n / 2)
  }

  /** The bit length is the only L with 2^(L-1) <= n < 2^L. */
  lemma {:induction false} BitsCountUnique(n: int, len: nat)
    requires n >= 1 && len >= 1
    requires Pow2(len - 1) <= n < Pow2(len)
    ensures BitsCount(n) == len
  {
    if n > 1 {
      assert Pow2(len - 2) <= n / 2 < Pow2(len - 1);
      BitsCountUnique(n / 2, len - 1);
    }
  }

  lemma {:induction false} Pow2Monotone(i: nat, j: nat)
    requires i <= j
    ensures Pow2(i) <= Pow2(j)
  {
    if i < j {
      Pow2Monotone(i, j - 1);
    }
  }

  /** Why a `require` check of an encoder failed. */
  datatype EncodeError =
    | NotPositive   // "n <= 0"
    | OutOfRange    // "n !in 1..2^bits-1" (fixed-length encoder)

  /** The encoder family; `EliasCode` carries the encoder of the length part. */
  datatype Encoder =
    | FixedLength(bits: int)
    | VariableByte
    | UnaryCode
    | EliasCode(lengthEncoder: Encoder)

  /** Elias gamma: Elias code with a unary length part. */
  const EliasGamma: Encoder := EliasCode(UnaryCode)

  /** Elias delta: Elias code with an Elias gamma length part. */
  const EliasDelta: Encoder := EliasCode(EliasGamma)

  const LongMax: int := 0x7FFF_FFFF_FFFF_FFFF

  /**
   * The largest value a fixed-length encoder accepts: 2^bits computed as a
   * double, truncated to a Long, minus one. The truncation gives 0 for a
   * negative exponent and saturates at Long.MAX_VALUE from 63 bits on.
   */
  function MaxValue(bits: int): int
  {
    if bits < 0 then -1
    else if bits >= 63 then LongMax - 1
    else Pow2(bits) - 1
  }

  /**
   * Bits the encoder `e` needs to store `n`, or the failed requirement. Only
   * positive values are ever accepted, and a cost is never negative.
   */
  function CalcBits(e: Encoder, n: int): (r: Result<int, EncodeError>)
    ensures r.Ok? ==> n >= 1 && r.value >= 0
  {
    match e
    case FixedLength(bits) =>
      if 1 <= n <= MaxValue(bits) then Ok(bits) else Err(OutOfRange)
    case VariableByte =>
      if n <= 0 then Err(NotPositive) else Ok((BitsCount(n) / 7) * 8)
    case UnaryCode =>
      if n <= 0 then Err(NotPositive) else Ok(n + 1)
    case EliasCode(inner) =>
      if n <= 0 then Err(NotPositive)
      else
        var len := BitsCount(n);
        match CalcBits(inner, len)
        case Ok(lenBits) => Ok(lenBits + len - 1)
        case Err(err) => Err(err)
  }

  // ---------------------------------------------------------------------
  // Properties of the encoders
  // ---------------------------------------------------------------------

  /** Every encoder rejects a non-positive value. */
  lemma {:induction false} NonPositiveRejected(e: Encoder, n: int)
    requires n <= 0
    ensures CalcBits(e, n).Err?
  {
  }

  /** Fixed length costs exactly `bits` on 1..2^bits-1 and fails elsewhere. */
  lemma {:induction false} FixedLengthCost(bits: int, n: int)
    requires 0 <= bits < 63
    ensures CalcBits(FixedLength(bits), n) ==
              if 1 <= n < Pow2(bits) then Ok(bits) else Err(OutOfRange)
  {
  }

  /**
   * A fixed-length encoder of 0..62 bits accepts a positive value exactly
   * when its plain binary representation fits in `bits` bits.
   */
  lemma {:induction false} FixedLengthFits(bits: int, n: int)
    requires 0 <= bits < 63 && n >= 1
    ensures CalcBits(FixedLength(bits), n).Ok? <==> BitsCount(n) <= bits
  {
    FixedLengthCost(bits, n);
    if BitsCount(n) <= bits {
      Pow2Monotone(BitsCount(n), bits);
    } else {
      Pow2Monotone(bits, BitsCount(n) - 1);
    }
  }

  /**
   * Outside 0..62 bits the double-to-Long truncation of 2^bits decides: a
   * negative width accepts nothing, and from 63 bits on every positive value
   * below Long.MAX_VALUE is accepted but Long.MAX_VALUE itself is not.
   */
  lemma {:induction false} FixedLengthEdges(bits: int, n: int)
    requires bits < 0 || bits >= 63
    ensures bits < 0 ==> CalcBits(FixedLength(bits), n) == Err(OutOfRange)
    ensures bits >= 63 ==> (CalcBits(FixedLength(bits), n).Ok? <==> 1 <= n < LongMax)
    ensures bits >= 63 ==> CalcBits(FixedLength(bits), LongMax) == Err(OutOfRange)
  {
  }

  /** Unary code stores n >= 1 as n ones and a zero; n <= 0 is rejected. */
  lemma {:induction false} UnaryCost(n: int)
    ensures CalcBits(UnaryCode, n) == if n <= 0 then Err(NotPositive) else Ok(n + 1)
  {
  }

  /** The values the tests check for the unary code. */
  lemma {:induction false} UnaryExamples()
    ensures CalcBits(UnaryCode, 1) == Ok(2)
    ensures CalcBits(UnaryCode, 5) == Ok(6)
    ensures CalcBits(UnaryCode, 100) == Ok(101)
  {
  }

  /**
   * Variable byte costs 8 * floor(L / 7) bits, always a multiple of 8, which
   * is at most L + L / 7 and at least L - 6 bits for an L-bit value.
   */
  lemma {:induction false} VariableByteCost(n: int)
    requires n >= 1
    ensures CalcBits(VariableByte, n).Ok?
    ensures var bits := CalcBits(VariableByte, n).value;
            bits % 8 == 0 && bits == 8 * (BitsCount(n) / 7) &&
            BitsCount(n) - 6 <= bits * 7 / 8 <= BitsCount(n)
  {
    var len := BitsCount(n);
    var q := len / 7;
    assert CalcBits(VariableByte, n) == Ok(8 * q);
    assert (8 * q) * 7 == 8 * (7 * q);
    EightTimes(q);
    EightTimes(7 * q);
    assert len == 7 * q + len % 7;
  }

  lemma {:induction false} EightTimes(x: int)
    ensures (8 * x) / 8 == x && (8 * x) % 8 == 0
  {
  }

  /** As written, variable byte spends no bits at all on values below 64 (the tests expect 8 for 1 and 10). */
  lemma {:induction false} VariableByteFreeBelow64(n: int)
    requires 1 <= n < 64
    ensures CalcBits(VariableByte, n) == Ok(0)
  {
    var len := BitsCount(n);
    SmallPowers();
    if len > 6 {
      Pow2Monotone(6, len - 1);
    }
    assert len <= 6;
  }

  lemma {:induction false} DivisionBy7(a: int, q: int, r: int)
    requires a == 7 * q + r && 0 <= r < 7
    ensures a / 7 == q
  {
  }

  /**
   * As written, variable byte spends one byte too few on every length that
   * is not a multiple of 7 (the tests expect 16 bits for 128 and 200).
   */
  lemma {:induction false} VariableByteShortByOne(n: int)
    requires n >= 1 && BitsCount(n) % 7 != 0
    ensures CalcBits(VariableByte, n).value + 8 == 8 * ((BitsCount(n) + 6) / 7)
  {
    var len := BitsCount(n);
    var q, r := len / 7, len % 7;
    DivisionBy7(len, q, r);
    DivisionBy7(len + 6, q + 1, r - 1);
  }

  /** The values the tests check for variable byte, as the code computes them. */
  lemma {:induction false} VariableByteExamples()
    ensures CalcBits(VariableByte, 1) == Ok(0)
    ensures CalcBits(VariableByte, 10) == Ok(0)
    ensures CalcBits(VariableByte, 127) == Ok(8)
    ensures CalcBits(VariableByte, 128) == Ok(8)
    ensures CalcBits(VariableByte, 200) == Ok(8)
    ensures CalcBits(VariableByte, 16383) == Ok(16)
    ensures CalcBits(VariableByte, 16384) == Ok(16)
  {
    SmallPowers();
    BitsCountUnique(1, 1);
    BitsCountUnique(10, 4);
    BitsCountUnique(127, 7);
    BitsCountUnique(128, 8);
    BitsCountUnique(200, 8);
    BitsCountUnique(16383, 14);
    BitsCountUnique(16384, 15);
  }

  /** The powers of two the examples below need, up to 2^15. */
  lemma {:induction false} SmallPowers()
    ensures Pow2(1) == 2 && Pow2(2) == 4 && Pow2(3) == 8 && Pow2(4) == 16
    ensures Pow2(6) == 64 && Pow2(7) == 128 && Pow2(8) == 256
    ensures Pow2(9) == 512 && Pow2(10) == 1024 && Pow2(11) == 2048
    ensures Pow2(13) == 8192 && Pow2(14) == 16384 && Pow2(15) == 32768
  {
    assert Pow2(5) == 32;
    assert Pow2(8) == 256;
    assert Pow2(12) == 4096;
  }

  /** An encoder without a fixed-length part never fails on a positive value. */
  predicate Unbounded(e: Encoder) {
    match e
    case FixedLength(_) => false
    case VariableByte => true
    case UnaryCode => true
    case EliasCode(inner) => Unbounded(inner)
  }

  lemma {:induction false} UnboundedNeverFails(e: Encoder, n: int)
    requires Unbounded(e) && n >= 1
    ensures CalcBits(e, n).Ok? && CalcBits(e, n).value >= 0
  {
    match e
    case VariableByte =>
    case UnaryCode =>
    case EliasCode(inner) =>
      UnboundedNeverFails(inner, BitsCount(n));
  }

  /**
   * As written, Elias gamma costs 2L bits for an L-bit value (unary(L) is
   * L + 1 bits): one more than the 2 * floor(log2 n) + 1 the tests expect.
   */
  lemma {:induction false} GammaCost(n: int)
    requires n >= 1
    ensures CalcBits(EliasGamma, n) == Ok(2 * BitsCount(n))
    ensures CalcBits(EliasGamma, n).value == (2 * (BitsCount(n) - 1) + 1) + 1
  {
  }

  /** Gamma is constant, 2k bits, on every range [2^(k-1), 2^k - 1]. */
  lemma {:induction false} GammaOnRange(k: nat, n: int)
    requires k >= 1 && Pow2(k - 1) <= n < Pow2(k)
    ensures CalcBits(EliasGamma, n) == Ok(2 * k)
  {
    BitsCountUnique(n, k);
  }

  /** The values the tests check for gamma, as the code computes them. */
  lemma {:induction false} GammaExamples()
    ensures CalcBits(EliasGamma, 1) == Ok(2)
    ensures CalcBits(EliasGamma, 2) == Ok(4)
    ensures CalcBits(EliasGamma, 4) == Ok(6)
    ensures CalcBits(EliasGamma, 511) == Ok(18)
    ensures CalcBits(EliasGamma, 1025) == Ok(22)
  {
    SmallPowers();
    GammaOnRange(1, 1);
    GammaOnRange(2, 2);
    GammaOnRange(3, 4);
    GammaOnRange(9, 511);
    GammaOnRange(11, 1025);
  }

  /** Elias delta costs 2 * bitLength(L) + L - 1 bits, L the bit length of n. */
  lemma {:induction false} DeltaCost(n: int)
    requires n >= 1
    ensures CalcBits(EliasDelta, n) ==
              Ok(2 * BitsCount(BitsCount(n)) + BitsCount(n) - 1)
  {
    var len := BitsCount(n);
    GammaCost(len);
    EliasCostOk(EliasGamma, n, 2 * BitsCount(len));
  }

  lemma {:induction false} EliasCostOk(inner: Encoder, n: int, lenBits: int)
    requires n >= 1 && CalcBits(inner, BitsCount(n)) == Ok(lenBits)
    ensures CalcBits(EliasCode(inner), n) == Ok(lenBits + BitsCount(n) - 1)
  {
  }

  /** Delta(7) is 6 by the code; the test expects 5. */
  lemma {:induction false} DeltaOfSeven()
    ensures CalcBits(EliasDelta, 7) == Ok(6)
  {
    SmallPowers();
    BitsCountUnique(7, 3);
    BitsCountUnique(3, 2);
    DeltaCost(7);
  }
}
