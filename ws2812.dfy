/**
  The WS2812 channel encoder: every colour byte is sent over SPI as eight
  SPI bytes, one per colour bit, most significant bit first.  A 1 bit is the
  SPI byte WS2812_SPI_HIGH and a 0 bit is WS2812_SPI_LOW; the LED reads the
  duty cycle of each SPI byte as one protocol bit.  One LED takes three such
  groups, green first, then red, then blue.

  The C functions receive a pointer into a caller's buffer; here that pointer
  is a buffer `buf` together with an offset `off` into it.
 */
module Ws2812 {

  datatype Option<T> = None | Some(value: T)

  /** uint16_t */
  type Uint16 = x: int | 0 <= x < 0x1_0000

  // Channel positions inside one LED, in units of one encoded colour.
  const WS2812_GREEN_OFFS: nat := 0
  const WS2812_RED_OFFS: nat := 1
  const WS2812_BLUE_OFFS: nat := 2

  // SPI bytes per colour byte, the two bit patterns, colours per LED.
  const WS2812_SPI_BIT_WIDTH: nat := 8
  const WS2812_SPI_HIGH: bv8 := 0xE
  const WS2812_SPI_LOW: bv8 := 0x8
  const WS2812_SPI_BYTE_PER_CLR: nat := 3

  /** Bytes of SPI data per LED, the stride WSSetLEDColors uses. */
  const LED_STRIDE: nat := WS2812_SPI_BYTE_PER_CLR * WS2812_SPI_BIT_WIDTH

  /** The stride the per-channel setters of the header use. */
  const HEADER_LED_STRIDE: nat := 3 * WS2812_SPI_BIT_WIDTH

  // ---------------------------------------------------------------------------
  // Specification functions
  // ---------------------------------------------------------------------------

  /** `s` with the bytes from `off` on replaced by `w`. */
  function Splice<T>(s: seq<T>, off: nat, w: seq<T>): (r: seq<T>)
    requires off + |w| <= |s|
    ensures |r| == |s|
    ensures forall k :: 0 <= k < |s| ==> r[k] == if off <= k < off + |w| then w[k - off] else s[k]
  {
    s[..off] + w + s[off + |w|..]
  }

  /** The SPI byte for bit position `i` (0 = most significant) of `c`. */
  function Symbol(c: bv8, i: nat): (r: bv8)
    requires i < 8
    ensures r == WS2812_SPI_HIGH || r == WS2812_SPI_LOW
  {
    if c & (0x80 >> i) != 0 then WS2812_SPI_HIGH else WS2812_SPI_LOW
  }

  /** The eight SPI bytes that encode one colour byte. */
  function Waveform(c: bv8): (w: seq<bv8>)
    ensures |w| == WS2812_SPI_BIT_WIDTH
    ensures forall i :: 0 <= i < |w| ==> w[i] == WS2812_SPI_HIGH || w[i] == WS2812_SPI_LOW
  {
    seq(8, i requires 0 <= i < 8 => Symbol(c, i))
  }

  /** The bit an SPI byte stands for, if it is one of the two patterns. */
  function SymbolBit(x: bv8): Option<bv8>
  {
    if x == WS2812_SPI_HIGH then Some(1)
    else if x == WS2812_SPI_LOW then Some(0)
    else None
  }

  /**
    The receiver's view: read SPI bytes back into a colour, most significant
    bit first, shifting each bit in at the bottom.  Fails on a byte that is
    neither pattern.
   */
  function DecodeFrom(w: seq<bv8>, acc: bv8): Option<bv8>
  {
    if w == [] then Some(acc)
    else
      match SymbolBit(w[0])
      case Some(b) => DecodeFrom(w[1..], (acc << 1) | b)
      case None => None
  }

  /** Decode one colour from eight SPI bytes. */
  function Decode(w: seq<bv8>): Option<bv8>
  {
    if |w| != WS2812_SPI_BIT_WIDTH then None else DecodeFrom(w, 0)
  }

  /** The 24 SPI bytes of one LED, channels in the order of their offsets. */
  function LedWaveform(green: bv8, red: bv8, blue: bv8): (w: seq<bv8>)
    ensures |w| == LED_STRIDE
  {
    Waveform(green) + Waveform(red) + Waveform(blue)
  }

  /** Decode the three colours of one LED from its 24 SPI bytes. */
  function DecodeLed(w: seq<bv8>): Option<(bv8, bv8, bv8)>
  {
    if |w| != LED_STRIDE then None
    else
      var bw := WS2812_SPI_BIT_WIDTH;
      match (Decode(w[bw * WS2812_GREEN_OFFS..bw * WS2812_GREEN_OFFS + bw]),
             Decode(w[bw * WS2812_RED_OFFS..bw * WS2812_RED_OFFS + bw]),
             Decode(w[bw * WS2812_BLUE_OFFS..bw * WS2812_BLUE_OFFS + bw]))
      case (Some(g), Some(r), Some(b)) => Some((g, r, b))
      case _ => None
  }

  /** What writing colour `c` into channel `ch` of the LED at `off` makes of `s`. */
  function ChannelWrite(s: seq<bv8>, off: nat, ch: nat, c: bv8): seq<bv8>
    requires off + WS2812_SPI_BIT_WIDTH * ch + WS2812_SPI_BIT_WIDTH <= |s|
  {
    Splice(s, off + WS2812_SPI_BIT_WIDTH * ch, Waveform(c))
  }

  /** `s` with its first `len` bytes set to the LOW pattern ("all LEDs off"). */
  function AllOff(s: seq<bv8>, len: nat): seq<bv8>
    requires len <= |s|
  {
    Splice(s, 0, seq(len, _ => WS2812_SPI_LOW))
  }

  // ---------------------------------------------------------------------------
  // Properties of the encoding
  // ---------------------------------------------------------------------------

  /** The protocol constants: two distinct patterns, eight per colour, three colours. */
  lemma ProtocolConstants()
    ensures WS2812_SPI_HIGH == 0xE && WS2812_SPI_LOW == 0x8 && WS2812_SPI_HIGH != WS2812_SPI_LOW
    ensures WS2812_SPI_BIT_WIDTH == 8 && WS2812_SPI_BYTE_PER_CLR == 3
    ensures HEADER_LED_STRIDE == LED_STRIDE == 24
  {
  }

  /** The three channel regions of one LED are pairwise disjoint and tile [0, 24). */
  lemma ChannelRegionsTile(k: nat)
    requires k < LED_STRIDE
    ensures WS2812_GREEN_OFFS != WS2812_RED_OFFS && WS2812_RED_OFFS != WS2812_BLUE_OFFS
    ensures WS2812_BLUE_OFFS != WS2812_GREEN_OFFS
    ensures (k / WS2812_SPI_BIT_WIDTH == WS2812_GREEN_OFFS) || (k / WS2812_SPI_BIT_WIDTH == WS2812_RED_OFFS)
         || (k / WS2812_SPI_BIT_WIDTH == WS2812_BLUE_OFFS)
  {
  }

  /** Most significant bit first: byte i is HIGH exactly when bit 7 - i of the colour is set. */
  lemma WaveformMsbFirst(c: bv8, i: nat)
    requires i < 8
    ensures Waveform(c)[i] == WS2812_SPI_HIGH <==> (c >> (7 - i)) & 1 == 1
    ensures Waveform(c)[i] == WS2812_SPI_LOW <==> (c >> (7 - i)) & 1 == 0
  {
  }

  lemma WaveformAllOnes()
    ensures Waveform(0xFF) == seq(8, _ => WS2812_SPI_HIGH)
  {
  }

  lemma WaveformAllZeros()
    ensures Waveform(0x00) == seq(8, _ => WS2812_SPI_LOW)
  {
  }

  /** The top k bits of c, as a number: what the first k bytes of its waveform carry. */
  function HighBits(c: bv8, k: nat): bv8
    requires k <= 8
  {
    match k
    case 0 => 0
    case 1 => c >> 7
    case 2 => c >> 6
    case 3 => c >> 5
    case 4 => c >> 4
    case 5 => c >> 3
    case 6 => c >> 2
    case 7 => c >> 1
    case _ => c
  }

  /** Bit 7 - k of c, as the k-th byte of its waveform carries it. */
  function Bit(c: bv8, k: nat): bv8
    requires k < 8
  {
    if c & (0x80 >> k) != 0 then 1 else 0
  }

  /** Byte k of c's waveform decodes to bit 7 - k of c. */
  lemma WaveformBit(c: bv8, k: nat)
    requires k < 8
    ensures SymbolBit(Waveform(c)[k]) == Some(Bit(c, k))
  {
  }

  /** Shifting in bit 7 - k below the top k bits gives the top k + 1 bits. */
  lemma ShiftInBit(c: bv8, k: nat)
    requires k < 8
    ensures (HighBits(c, k) << 1) | Bit(c, k) == HighBits(c, k + 1)
  {
    if k == 0 {
    } else if k == 1 {
    } else if k == 2 {
    } else if k == 3 {
    } else if k == 4 {
    } else if k == 5 {
    } else if k == 6 {
    } else {
    }
  }

  /** Having read the top k bits, the rest of the waveform yields the whole colour. */
  lemma {:induction false} DecodeSuffix(c: bv8, k: nat)
    requires k <= 8
    ensures DecodeFrom(Waveform(c)[k..], HighBits(c, k)) == Some(c)
    decreases 8 - k
  {
    var w := Waveform(c);
    if k < 8 {
      WaveformBit(c, k);
      ShiftInBit(c, k);
      DecodeSuffix(c, k + 1);
      assert w[k..][1..] == w[k + 1..];
    } else {
      assert w[k..] == [];
    }
  }

  /** Round trip: the receiver's decoding of a waveform is the colour encoded. */
  lemma DecodeWaveform(c: bv8)
    ensures Decode(Waveform(c)) == Some(c)
  {
    DecodeSuffix(c, 0);
    assert Waveform(c)[0..] == Waveform(c);
  }

  /** Only the two patterns decode: a byte that is neither makes the whole decoding fail. */
  lemma {:induction false} DecodeOnlyPatterns(w: seq<bv8>, acc: bv8)
    requires DecodeFrom(w, acc).Some?
    ensures forall k :: 0 <= k < |w| ==> w[k] == WS2812_SPI_HIGH || w[k] == WS2812_SPI_LOW
  {
    if w != [] {
      DecodeOnlyPatterns(w[1..], (acc << 1) | SymbolBit(w[0]).value);
      assert forall k :: 1 <= k < |w| ==> w[k] == w[1..][k - 1];
    }
  }

  /** Eight bytes that are all HIGH or LOW are the waveform of the colour their bits spell. */
  lemma PatternsAreWaveform(w: seq<bv8>) returns (x: bv8)
    requires |w| == 8
    requires forall k :: 0 <= k < 8 ==> w[k] == WS2812_SPI_HIGH || w[k] == WS2812_SPI_LOW
    ensures w == Waveform(x)
  {
    x := (if w[0] == WS2812_SPI_HIGH then 0x80 else 0) | (if w[1] == WS2812_SPI_HIGH then 0x40 else 0)
       | (if w[2] == WS2812_SPI_HIGH then 0x20 else 0) | (if w[3] == WS2812_SPI_HIGH then 0x10 else 0)
       | (if w[4] == WS2812_SPI_HIGH then 0x08 else 0) | (if w[5] == WS2812_SPI_HIGH then 0x04 else 0)
       | (if w[6] == WS2812_SPI_HIGH then 0x02 else 0) | (if w[7] == WS2812_SPI_HIGH then 0x01 else 0);
    forall k | 0 <= k < 8
      ensures w[k] == Waveform(x)[k]
    {
      if k == 0 { assert Symbol(x, 0) == w[0]; }
      else if k == 1 { assert Symbol(x, 1) == w[1]; }
      else if k == 2 { assert Symbol(x, 2) == w[2]; }
      else if k == 3 { assert Symbol(x, 3) == w[3]; }
      else if k == 4 { assert Symbol(x, 4) == w[4]; }
      else if k == 5 { assert Symbol(x, 5) == w[5]; }
      else if k == 6 { assert Symbol(x, 6) == w[6]; }
      else { assert Symbol(x, 7) == w[7]; }
    }
  }

  /** Decode is exactly the inverse of Waveform: eight bytes decode to c iff they are c's waveform. */
  lemma DecodeIffWaveform(w: seq<bv8>, c: bv8)
    ensures Decode(w) == Some(c) <==> w == Waveform(c)
  {
    if w == Waveform(c) {
      DecodeWaveform(c);
    }
    if Decode(w) == Some(c) {
      DecodeOnlyPatterns(w, 0);
      var x := PatternsAreWaveform(w);
      DecodeWaveform(x);
    }
  }

  /** Each channel's region of an LED holds that channel's waveform and nothing else. */
  lemma LedWaveformChannels(green: bv8, red: bv8, blue: bv8)
    ensures LedWaveform(green, red, blue)[8 * WS2812_GREEN_OFFS..8 * WS2812_GREEN_OFFS + 8] == Waveform(green)
    ensures LedWaveform(green, red, blue)[8 * WS2812_RED_OFFS..8 * WS2812_RED_OFFS + 8] == Waveform(red)
    ensures LedWaveform(green, red, blue)[8 * WS2812_BLUE_OFFS..8 * WS2812_BLUE_OFFS + 8] == Waveform(blue)
  {
  }

  /** Round trip for one LED. */
  lemma DecodeLedWaveform(green: bv8, red: bv8, blue: bv8)
    ensures DecodeLed(LedWaveform(green, red, blue)) == Some((green, red, blue))
  {
    LedWaveformChannels(green, red, blue);
    DecodeWaveform(green);
    DecodeWaveform(red);
    DecodeWaveform(blue);
  }

  /** Writing two disjoint regions gives the same result in either order. */
  lemma SpliceCommute<T>(s: seq<T>, a: nat, v: seq<T>, b: nat, w: seq<T>)
    requires a + |v| <= |s| && b + |w| <= |s|
    requires a + |v| <= b || b + |w| <= a
    ensures Splice(Splice(s, a, v), b, w) == Splice(Splice(s, b, w), a, v)
  {
  }

  /** Writing two adjacent regions is writing their concatenation. */
  lemma SpliceAdjacent<T>(s: seq<T>, a: nat, v: seq<T>, w: seq<T>)
    requires a + |v| + |w| <= |s|
    ensures Splice(Splice(s, a, v), a + |v|, w) == Splice(s, a, v + w)
  {
    var l, r := Splice(Splice(s, a, v), a + |v|, w), Splice(s, a, v + w);
    forall k | 0 <= k < |s|
      ensures l[k] == r[k]
    {
      if a + |v| <= k < a + |v| + |w| {
        assert (v + w)[k - a] == w[k - a - |v|];
      }
    }
  }

  /** Writes into two different channels of one LED commute. */
  lemma ChannelWritesCommute(s: seq<bv8>, off: nat, ch1: nat, c1: bv8, ch2: nat, c2: bv8)
    requires ch1 < WS2812_SPI_BYTE_PER_CLR && ch2 < WS2812_SPI_BYTE_PER_CLR && ch1 != ch2
    requires off + LED_STRIDE <= |s|
    ensures ChannelWrite(ChannelWrite(s, off, ch1, c1), off, ch2, c2)
         == ChannelWrite(ChannelWrite(s, off, ch2, c2), off, ch1, c1)
  {
    SpliceCommute(s, off + 8 * ch1, Waveform(c1), off + 8 * ch2, Waveform(c2));
  }

  /** Green, red and blue channel writes on one base together write the LED's 24 bytes. */
  lemma ChannelWritesMakeLed(s: seq<bv8>, off: nat, green: bv8, red: bv8, blue: bv8)
    requires off + LED_STRIDE <= |s|
    ensures ChannelWrite(ChannelWrite(ChannelWrite(s, off, WS2812_GREEN_OFFS, green), off, WS2812_RED_OFFS, red),
                         off, WS2812_BLUE_OFFS, blue)
         == Splice(s, off, LedWaveform(green, red, blue))
  {
    SpliceAdjacent(s, off, Waveform(green), Waveform(red));
    SpliceAdjacent(s, off, Waveform(green) + Waveform(red), Waveform(blue));
  }

  /** The header's per-channel setters on LED `led` together do what WSSetLEDColors does. */
  lemma HeaderSettersMakeLed(s: seq<bv8>, led: nat, green: bv8, red: bv8, blue: bv8)
    requires HEADER_LED_STRIDE * led + LED_STRIDE <= |s|
    ensures ChannelWrite(ChannelWrite(ChannelWrite(s, HEADER_LED_STRIDE * led, WS2812_GREEN_OFFS, green),
                                      HEADER_LED_STRIDE * led, WS2812_RED_OFFS, red),
                         HEADER_LED_STRIDE * led, WS2812_BLUE_OFFS, blue)
         == Splice(s, LED_STRIDE * led, LedWaveform(green, red, blue))
  {
    ChannelWritesMakeLed(s, LED_STRIDE * led, green, red, blue);
  }

  /** The whole-LED writes of two different LEDs touch disjoint regions, so they commute. */
  lemma LedWritesCommute(s: seq<bv8>, n: nat, m: nat, v: seq<bv8>, w: seq<bv8>)
    requires n != m && |v| == LED_STRIDE && |w| == LED_STRIDE
    requires LED_STRIDE * n + LED_STRIDE <= |s| && LED_STRIDE * m + LED_STRIDE <= |s|
    ensures LED_STRIDE * n + LED_STRIDE <= LED_STRIDE * m || LED_STRIDE * m + LED_STRIDE <= LED_STRIDE * n
    ensures Splice(Splice(s, LED_STRIDE * n, v), LED_STRIDE * m, w)
         == Splice(Splice(s, LED_STRIDE * m, w), LED_STRIDE * n, v)
  {
    if n < m {
      assert LED_STRIDE * n + LED_STRIDE <= LED_STRIDE * m;
    } else {
      assert LED_STRIDE * m + LED_STRIDE <= LED_STRIDE * n;
    }
    SpliceCommute(s, LED_STRIDE * n, v, LED_STRIDE * m, w);
  }

  /** Turning all LEDs off twice is turning them off once. */
  lemma AllOffIdempotent(s: seq<bv8>, len: nat)
    requires len <= |s|
    ensures AllOff(AllOff(s, len), len) == AllOff(s, len)
  {
  }

  /** With len == 0 nothing changes; otherwise exactly the first len bytes are LOW. */
  lemma AllOffContents(s: seq<bv8>, len: nat)
    requires len <= |s|
    ensures len == 0 ==> AllOff(s, len) == s
    ensures forall k :: 0 <= k < |s| ==> AllOff(s, len)[k] == if k < len then WS2812_SPI_LOW else s[k]
  {
  }

  /** A buffer of LOW bytes shows every LED black: each LED's bytes decode to (0, 0, 0). */
  lemma AllOffIsBlack(s: seq<bv8>, n: nat)
    requires LED_STRIDE * n + LED_STRIDE <= |s|
    requires forall k :: 0 <= k < |s| ==> s[k] == WS2812_SPI_LOW
    ensures DecodeLed(s[LED_STRIDE * n..LED_STRIDE * n + LED_STRIDE]) == Some((0, 0, 0))
  {
    WaveformAllZeros();
    assert s[LED_STRIDE * n..LED_STRIDE * n + LED_STRIDE] == LedWaveform(0, 0, 0);
    DecodeLedWaveform(0, 0, 0);
  }

  // ---------------------------------------------------------------------------
  // The driver operations, in place on the caller's buffer
  // ---------------------------------------------------------------------------

  /** WStoSPI: encode one colour byte into buf[off..off + 8]. */
  method ToSpi(buf: array<bv8>, off: nat, color: bv8)
    requires off + WS2812_SPI_BIT_WIDTH <= buf.Length
    modifies buf
    ensures buf[..] == Splice(old(buf[..]), off, Waveform(color))
  {
    for i := 0 to 8
      invariant forall k :: 0 <= k < buf.Length ==>
        buf[k] == if off <= k < off + i then Waveform(color)[k - off] else old(buf[k])
    {
      if color & (0x80 >> i) != 0 {
        buf[off + i] := WS2812_SPI_HIGH;
      } else {
        buf[off + i] := WS2812_SPI_LOW;
      }
    }
  }

  /** WSGRBtoSPI: encode one LED's three colours at buf[off..off + 24]. */
  method GrbToSpi(buf: array<bv8>, off: nat, green: bv8, red: bv8, blue: bv8)
    requires off + LED_STRIDE <= buf.Length
    modifies buf
    ensures buf[..] == Splice(old(buf[..]), off, LedWaveform(green, red, blue))
  {
    ToSpi(buf, off + WS2812_SPI_BIT_WIDTH * WS2812_GREEN_OFFS, green);
    ToSpi(buf, off + WS2812_SPI_BIT_WIDTH * WS2812_RED_OFFS, red);
    ToSpi(buf, off + WS2812_SPI_BIT_WIDTH * WS2812_BLUE_OFFS, blue);
    ChannelWritesMakeLed(old(buf[..]), off, green, red, blue);
  }

  /** WSGtoSPI: the green channel of the LED that starts at off. */
  method GToSpi(buf: array<bv8>, off: nat, color: bv8)
    requires off + WS2812_SPI_BIT_WIDTH * WS2812_GREEN_OFFS + WS2812_SPI_BIT_WIDTH <= buf.Length
    modifies buf
    ensures buf[..] == ChannelWrite(old(buf[..]), off, WS2812_GREEN_OFFS, color)
  {
    ToSpi(buf, off + WS2812_SPI_BIT_WIDTH * WS2812_GREEN_OFFS, color);
  }

  /** WSRtoSPI: the red channel of the LED that starts at off. */
  method RToSpi(buf: array<bv8>, off: nat, color: bv8)
    requires off + WS2812_SPI_BIT_WIDTH * WS2812_RED_OFFS + WS2812_SPI_BIT_WIDTH <= buf.Length
    modifies buf
    ensures buf[..] == ChannelWrite(old(buf[..]), off, WS2812_RED_OFFS, color)
  {
    ToSpi(buf, off + WS2812_SPI_BIT_WIDTH * WS2812_RED_OFFS, color);
  }

  /** WSBtoSPI: the blue channel of the LED that starts at off. */
  method BToSpi(buf: array<bv8>, off: nat, color: bv8)
    requires off + WS2812_SPI_BIT_WIDTH * WS2812_BLUE_OFFS + WS2812_SPI_BIT_WIDTH <= buf.Length
    modifies buf
    ensures buf[..] == ChannelWrite(old(buf[..]), off, WS2812_BLUE_OFFS, color)
  {
    ToSpi(buf, off + WS2812_SPI_BIT_WIDTH * WS2812_BLUE_OFFS, color);
  }

  /** WSSetLEDColors: encode the three colours of LED number `led` of the strip. */
  method SetLedColors(buf: array<bv8>, led: Uint16, green: bv8, red: bv8, blue: bv8)
    requires LED_STRIDE * led + LED_STRIDE <= buf.Length
    modifies buf
    ensures buf[..] == Splice(old(buf[..]), LED_STRIDE * led, LedWaveform(green, red, blue))
  {
    var base := WS2812_SPI_BYTE_PER_CLR * WS2812_SPI_BIT_WIDTH * led;
    ToSpi(buf, base + WS2812_SPI_BIT_WIDTH * WS2812_GREEN_OFFS, green);
    ToSpi(buf, base + WS2812_SPI_BIT_WIDTH * WS2812_RED_OFFS, red);
    ToSpi(buf, base + WS2812_SPI_BIT_WIDTH * WS2812_BLUE_OFFS, blue);
    ChannelWritesMakeLed(old(buf[..]), base, green, red, blue);
  }

  /** WSSetLEDGreen: the green channel of LED number `led`. */
  method SetLedGreen(buf: array<bv8>, led: Uint16, color: bv8)
    requires HEADER_LED_STRIDE * led + WS2812_SPI_BIT_WIDTH * WS2812_GREEN_OFFS + WS2812_SPI_BIT_WIDTH <= buf.Length
    modifies buf
    ensures buf[..] == ChannelWrite(old(buf[..]), HEADER_LED_STRIDE * led, WS2812_GREEN_OFFS, color)
  {
    ToSpi(buf, 3 * WS2812_SPI_BIT_WIDTH * led + WS2812_SPI_BIT_WIDTH * WS2812_GREEN_OFFS, color);
  }

  /** WSSetLEDRed: the red channel of LED number `led`. */
  method SetLedRed(buf: array<bv8>, led: Uint16, color: bv8)
    requires HEADER_LED_STRIDE * led + WS2812_SPI_BIT_WIDTH * WS2812_RED_OFFS + WS2812_SPI_BIT_WIDTH <= buf.Length
    modifies buf
    ensures buf[..] == ChannelWrite(old(buf[..]), HEADER_LED_STRIDE * led, WS2812_RED_OFFS, color)
  {
    ToSpi(buf, 3 * WS2812_SPI_BIT_WIDTH * led + WS2812_SPI_BIT_WIDTH * WS2812_RED_OFFS, color);
  }

  /** WSSetLEDBlue: the blue channel of LED number `led`. */
  method SetLedBlue(buf: array<bv8>, led: Uint16, color: bv8)
    requires HEADER_LED_STRIDE * led + WS2812_SPI_BIT_WIDTH * WS2812_BLUE_OFFS + WS2812_SPI_BIT_WIDTH <= buf.Length
    modifies buf
    ensures buf[..] == ChannelWrite(old(buf[..]), HEADER_LED_STRIDE * led, WS2812_BLUE_OFFS, color)
  {
    ToSpi(buf, 3 * WS2812_SPI_BIT_WIDTH * led + WS2812_SPI_BIT_WIDTH * WS2812_BLUE_OFFS, color);
  }

  /** WSArrayInit: fill buf[0..len] with the LOW pattern; len == 0 returns at once. */
  method ArrayInit(buf: array<bv8>, len: Uint16)
    requires len <= buf.Length
    modifies buf
    ensures buf[..] == AllOff(old(buf[..]), len)
  {
    if len == 0 {
      return;
    }
    for i := 0 to len
      invariant forall k :: 0 <= k < buf.Length ==> buf[k] == if k < i then WS2812_SPI_LOW else old(buf[k])
    {
      buf[i] := WS2812_SPI_LOW;
    }
  }
}
