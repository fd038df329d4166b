/** The small numeric rules the decoders share: Fahrenheit to Celsius,
    big-endian 16-bit words and their two's-complement reading. */
module Conversions {
  import opened Values

  /** `FtoC` of the driver, over exact reals. */
  function FtoC(f: real): (c: real)
    ensures c * 9.0 / 5.0 + 32.0 == f
  {
    (f - 32.0) * 5.0 / 9.0
  }

  /** FtoC's inverse. The driver has no Celsius-to-Fahrenheit conversion. */
  function CtoF(c: real): real
  {
    c * 9.0 / 5.0 + 32.0
  }

  lemma FtoCRoundTrip(f: real, c: real)
    ensures CtoF(FtoC(f)) == f
    ensures FtoC(CtoF(c)) == c
  {
  }

  /** FtoC is strictly increasing, so distinct Fahrenheit readings stay distinct. */
  lemma FtoCStrictlyIncreasing(f: real, g: real)
    ensures f < g <==> FtoC(f) < FtoC(g)
  {
  }

  /** The big-endian unsigned 16-bit word `256 * hi + lo`. */
  function Word(hi: Byte, lo: Byte): (w: int)
    ensures 0 <= w < 0x1_0000
    ensures w / 256 == hi && w % 256 == lo
  {
    256 * hi + lo
  }

  lemma WordInjective(hi: Byte, lo: Byte, hi': Byte, lo': Byte)
    ensures Word(hi, lo) == Word(hi', lo') <==> hi == hi' && lo == lo'
  {
  }

  /** A word read as two's-complement: subtract 65536 when it is at least 32768. */
  function Signed16(w: int): (s: int)
    requires 0 <= w < 0x1_0000
    ensures -0x8000 <= s < 0x8000
    ensures s % 0x1_0000 == w
  {
    if w >= 0x8000 then w - 0x1_0000 else w
  }

  /** Signed16 loses nothing: every signed value in range has exactly one word. */
  lemma Signed16RoundTrip(s: int)
    requires -0x8000 <= s < 0x8000
    ensures 0 <= s % 0x1_0000 < 0x1_0000 && Signed16(s % 0x1_0000) == s
  {
  }
}
