/**
 * The readings of a pair of 16-bit holding registers, read with Modbus
 * function 0x03 (Read Holding Registers, section 6.3 of the Modbus
 * Application Protocol Specification V1.1b3): four bytes, most significant
 * byte of each register first. The Go code reads them three ways: straight
 * big-endian (ABCD), word-swapped (CDAB), and the first register alone.
 */
module RegisterDecoder {

  /**
   * The float32 `math.Float32frombits(bits)`, known only by its IEEE-754
   * binary32 bit pattern; no floating-point arithmetic is modelled.
   */
  datatype Float32 = FromBits(bits: bv32)

  /** A binary32 value is NaN or an infinity exactly when its eight exponent bits are all ones. */
  predicate IsFinite(f: Float32) {
    (f.bits >> 23) & 0xFF != 0xFF
  }

  /** `binary.BigEndian.Uint16`: the first two bytes, most significant first. */
  function BigEndianUint16(b: seq<bv8>): (v: bv16)
    requires |b| >= 2
    ensures (v >> 8) as bv8 == b[0] && (v & 0xFF) as bv8 == b[1]
  {
    (b[1] as bv16) | (b[0] as bv16 << 8)
  }

  /**
   * `binary.BigEndian.Uint32`: the first four bytes, most significant first.
   * It loses nothing: writing the word back gives the same four bytes.
   */
  function BigEndianUint32(b: seq<bv8>): (w: bv32)
    requires |b| >= 4
    ensures PutUint32(w) == b[..4]
  {
    WordBytes(b[0], b[1], b[2], b[3]);
    (b[3] as bv32) | (b[2] as bv32 << 8) | (b[1] as bv32 << 16) | (b[0] as bv32 << 24)
  }

  /** A 32-bit word with its two 16-bit halves exchanged. */
  function SwapHalves(w: bv32): bv32 {
    (w << 16) | (w >> 16)
  }

  /** The upper 16 bits of a word. */
  function HighHalf(w: bv32): bv16 {
    (w >> 16) as bv16
  }

  /** Two 16-bit registers side by side, the first one high. */
  function Concat16(high: bv16, low: bv16): bv32 {
    (high as bv32 << 16) | (low as bv32)
  }

  /** `binary.BigEndian.PutUint32`: the four bytes of a word, most significant first. */
  function PutUint32(v: bv32): (b: seq<bv8>)
    ensures |b| == 4
  {
    [(v >> 24) as bv8, ((v >> 16) & 0xFF) as bv8, ((v >> 8) & 0xFF) as bv8, (v & 0xFF) as bv8]
  }

  lemma WordBytes(b0: bv8, b1: bv8, b2: bv8, b3: bv8)
    ensures var v := (b3 as bv32) | (b2 as bv32 << 8) | (b1 as bv32 << 16) | (b0 as bv32 << 24);
      (v >> 24) as bv8 == b0 && ((v >> 16) & 0xFF) as bv8 == b1
      && ((v >> 8) & 0xFF) as bv8 == b2 && (v & 0xFF) as bv8 == b3
  {
  }

  /** Every 32-bit pattern is the big-endian reading of exactly its own four bytes. */
  lemma BigEndianWordRoundTrip(v: bv32)
    ensures BigEndianUint32(PutUint32(v)) == v
  {
  }

  /** The word swap of energy_backend.go:147 and modbus_client.go:85: bytes [2, 3, 0, 1]. */
  function WordSwap(b: seq<bv8>): (s: seq<bv8>)
    requires |b| >= 4
    ensures |s| == 4 && s[..2] == b[2..4] && s[2..] == b[..2]
  {
    [b[2], b[3], b[0], b[1]]
  }

  /** Swapping the words twice restores the original four bytes. */
  lemma WordSwapInvolution(b: seq<bv8>)
    requires |b| >= 4
    ensures WordSwap(WordSwap(b)) == b[..4]
  {
  }

  /**
   * The CDAB reading. It is the big-endian reading with its two 16-bit halves
   * exchanged: the low word moves up, the high word moves down.
   */
  function WordSwappedUint32(b: seq<bv8>): (v: bv32)
    requires |b| >= 4
    ensures v == SwapHalves(BigEndianUint32(b))
  {
    BigEndianUint32(WordSwap(b))
  }

  /** Straight and word-swapped readings are mirror images: each undoes the other's byte order. */
  lemma WordSwapSymmetry(b: seq<bv8>)
    requires |b| >= 4
    ensures WordSwappedUint32(WordSwap(b)) == BigEndianUint32(b)
    ensures BigEndianUint32(WordSwap(b)) == WordSwappedUint32(b)
  {
    var c := WordSwap(WordSwap(b));
    assert c[0] == b[0] && c[1] == b[1] && c[2] == b[2] && c[3] == b[3];
  }

  /** The first register alone (modbus_client.go:90): the high half of the big-endian reading. */
  function FirstRegister(b: seq<bv8>): (v: bv16)
    requires |b| >= 4
    ensures v == HighHalf(BigEndianUint32(b))
  {
    BigEndianUint16(b[0..2])
  }

  /** The first-register reading does not depend on the third and fourth bytes. */
  lemma FirstRegisterIgnoresSecond(b: seq<bv8>, c: seq<bv8>)
    requires |b| >= 4 && |c| >= 4 && b[0] == c[0] && b[1] == c[1]
    ensures FirstRegister(b) == FirstRegister(c)
  {
    assert b[0..2] == c[0..2];
  }

  /** The two raw registers printed at modbus_client.go:98-100; side by side they make the big-endian reading. */
  function RawRegisters(b: seq<bv8>): (r: (bv16, bv16))
    requires |b| >= 4
    ensures Concat16(r.0, r.1) == BigEndianUint32(b)
  {
    (BigEndianUint16(b[0..2]), BigEndianUint16(b[2..4]))
  }

  /**
   * Bytes 3F 80 00 00: read straight they are the bit pattern of 1.0 (sign 0,
   * biased exponent 127, fraction 0); word-swapped they are 0x00003F80, whose
   * exponent bits are all zero, so that reading is a subnormal number.
   */
  lemma OnePointZeroExample()
    ensures BigEndianUint32([0x3F, 0x80, 0x00, 0x00]) == 0x3F80_0000
    ensures var one: bv32 := 0x3F80_0000; one >> 31 == 0 && (one >> 23) & 0xFF == 127 && one & 0x7F_FFFF == 0
    ensures WordSwappedUint32([0x3F, 0x80, 0x00, 0x00]) == 0x0000_3F80
    ensures var swapped: bv32 := 0x0000_3F80; (swapped >> 23) & 0xFF == 0 && swapped != 0
  {
  }
}
