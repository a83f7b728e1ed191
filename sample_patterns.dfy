/**
  The colour-wheel animation of the example application.  A colour is a
  (green, red, blue) triple of bytes.  The wheel has six segments; along each
  one channel is 0xFF, one is 0x00 and the third ramps up or down:

    ONE    R = 0xFF, G rises,  B = 0
    TWO    G = 0xFF, R falls,  B = 0
    THREE  G = 0xFF, B rises,  R = 0
    FOUR   B = 0xFF, G falls,  R = 0
    FIVE   B = 0xFF, R rises,  G = 0
    SIX    R = 0xFF, B falls,  G = 0

  Bytes are integers in [0, 256); C computes in int and truncates modulo 256
  when it stores into a uint8_t, which U8 makes explicit.
 */
module SamplePatterns {

  /** uint8_t */
  type Byte = x: int | 0 <= x < 0x100

  /** Storing an int into a uint8_t. */
  function U8(x: int): (b: Byte)
    ensures 0 <= x < 0x100 ==> b == x
  {
    x % 0x100
  }

  /** One LED's colour, in the GRB order the LEDs use. */
  datatype Grb = Grb(green: Byte, red: Byte, blue: Byte)

  const NUMSECT: nat := 6

  /** Positions on the wheel: 255 steps per segment. */
  const WHEEL_STEPS: nat := NUMSECT * 0xFF

  /** A wheel colour: some channel full and some channel off. */
  predicate OnWheel(c: Grb)
  {
    (c.green == 0xFF || c.red == 0xFF || c.blue == 0xFF) && (c.green == 0 || c.red == 0 || c.blue == 0)
  }

  /** Point p of the wheel, segment by segment as the wheel is documented. */
  function WheelAt(p: nat): (c: Grb)
    requires p < WHEEL_STEPS
    ensures OnWheel(c)
  {
    var t := p % 0xFF;
    match p / 0xFF
    case 0 => Grb(t, 0xFF, 0)
    case 1 => Grb(0xFF, 0xFF - t, 0)
    case 2 => Grb(0xFF, 0, t)
    case 3 => Grb(0xFF - t, 0, 0xFF)
    case 4 => Grb(0, t, 0xFF)
    case _ => Grb(0, 0xFF, 0xFF - t)
  }

  /** Where a wheel colour sits on the wheel. */
  function WheelPos(c: Grb): (p: nat)
    requires OnWheel(c)
    ensures p < WHEEL_STEPS
  {
    var Grb(g, r, b) := c;
    if r == 0xFF && b == 0 && g < 0xFF then g
    else if g == 0xFF && b == 0 && r > 0 then 0xFF + (0xFF - r)
    else if g == 0xFF && r == 0 && b < 0xFF then 2 * 0xFF + b
    else if b == 0xFF && r == 0 && g > 0 then 3 * 0xFF + (0xFF - g)
    else if b == 0xFF && g == 0 && r < 0xFF then 4 * 0xFF + r
    else 5 * 0xFF + (0xFF - b)
  }

  /** WheelAt and WheelPos are inverse bijections between [0, 1530) and the wheel colours. */
  lemma WheelPosAt(p: nat)
    requires p < WHEEL_STEPS
    ensures WheelPos(WheelAt(p)) == p
  {
  }

  lemma WheelAtPos(c: Grb)
    requires OnWheel(c)
    ensures WheelAt(WheelPos(c)) == c
  {
  }

  /** How far a byte moved, as a distance between integers. */
  function Delta(x: Byte, y: Byte): nat
  {
    if x <= y then y - x else x - y
  }

  /**
    The branch rule of rainbowShift, from colour c to colour n: on the
    first two guards one channel falls while another is nonzero, else a
    neighbour rises; otherwise green falls, or red rises once green is 0.
   */
  predicate ShiftRule(c: Grb, n: Grb)
  {
    var Grb(green, red, blue) := c;
    if red == 0xFF && green != 0xFF then
      if blue > 0 then n == Grb(green, red, blue - 1) else n == Grb(green + 1, red, blue)
    else if green == 0xFF && blue != 0xFF then
      if red > 0 then n == Grb(green, red - 1, blue) else n == Grb(green, red, blue + 1)
    else if green > 0 then n == Grb(green - 1, red, blue)
    else n == Grb(green, red + 1, blue)
  }

  /** The branch rule moves exactly one channel by exactly one, so no byte wraps around. */
  lemma ShiftRuleMovesOneChannel(c: Grb, n: Grb)
    requires ShiftRule(c, n)
    ensures Delta(c.green, n.green) + Delta(c.red, n.red) + Delta(c.blue, n.blue) == 1
  {
  }

  /** On the wheel, the branch rule keeps the colour on the wheel and advances it by one step. */
  lemma ShiftRuleAdvances(c: Grb, n: Grb)
    requires OnWheel(c) && ShiftRule(c, n)
    ensures OnWheel(n)
    ensures WheelPos(n) == (WheelPos(c) + 1) % WHEEL_STEPS
  {
  }

  /**
    rainbowShift: move to the next colour of the wheel by changing exactly
    one channel by one.
   */
  method RainbowShift(green: Byte, red: Byte, blue: Byte) returns (g: Byte, r: Byte, b: Byte)
    ensures ShiftRule(Grb(green, red, blue), Grb(g, r, b))
    ensures Delta(green, g) + Delta(red, r) + Delta(blue, b) == 1
    ensures OnWheel(Grb(green, red, blue)) ==> OnWheel(Grb(g, r, b))
    ensures OnWheel(Grb(green, red, blue)) ==>
      WheelPos(Grb(g, r, b)) == (WheelPos(Grb(green, red, blue)) + 1) % WHEEL_STEPS
  {
    g, r, b := green, red, blue;
    if r == 0xFF && g != 0xFF {
      if b > 0 {
        b := U8(b - 1);
      } else {
        g := U8(g + 1);
      }
    } else if g == 0xFF && b != 0xFF {
      if r > 0 {
        r := U8(r - 1);
      } else {
        b := U8(b + 1);
      }
    } else {
      if g > 0 {
        g := U8(g - 1);
      } else {
        r := U8(r + 1);
      }
      Settle(green, red, blue, g, r, b);
      return;
    }
    Settle(green, red, blue, g, r, b);
  }

  /**
    The facts rainbowShift promises, once its branch rule holds.  RainbowShift
    calls this at each of its two exits (the early return and the end) so
    that the proof at each exit stays small.
   */
  lemma Settle(green: Byte, red: Byte, blue: Byte, g: Byte, r: Byte, b: Byte)
    requires ShiftRule(Grb(green, red, blue), Grb(g, r, b))
    ensures Delta(green, g) + Delta(red, r) + Delta(blue, b) == 1
    ensures OnWheel(Grb(green, red, blue)) ==> OnWheel(Grb(g, r, b))
    ensures OnWheel(Grb(green, red, blue)) ==>
      WheelPos(Grb(g, r, b)) == (WheelPos(Grb(green, red, blue)) + 1) % WHEEL_STEPS
  {
    ShiftRuleMovesOneChannel(Grb(green, red, blue), Grb(g, r, b));
    if OnWheel(Grb(green, red, blue)) {
      ShiftRuleAdvances(Grb(green, red, blue), Grb(g, r, b));
    }
  }

  /** The doc's first example: (G, R, B) = (0, 0xFF, 0) moves to (1, 0xFF, 0), in segment ONE. */
  method RainbowShiftFromRed() returns (c: Grb)
    ensures c == Grb(1, 0xFF, 0) && WheelPos(c) == 1
  {
    var g, r, b := RainbowShift(0, 0xFF, 0);
    c := Grb(g, r, b);
  }

  // ---------------------------------------------------------------------------
  // rainbowInit
  // ---------------------------------------------------------------------------

  /** The C expression (0xFF / ledPerSect) * j: how far row j sits into its section. */
  function Step(ledPerSect: nat, j: nat): nat
    requires ledPerSect > 0
  {
    (0xFF / ledPerSect) * j
  }

  /** The colour the code stores for section `section` at the given step. */
  function SectionColour(section: nat, step: int): (c: Grb)
    requires section < NUMSECT
    ensures c.green == 0xFF || c.red == 0xFF || c.blue == 0xFF
    ensures c.green == 0x00 || c.red == 0x00 || c.blue == 0x00
  {
    match section
    case 0 => Grb(U8(step), 0xFF, 0x00)
    case 1 => Grb(0xFF, U8(0xFF - step), 0x00)
    case 2 => Grb(0xFF, 0x00, U8(step))
    case 3 => Grb(U8(0xFF - step), 0x00, 0xFF)
    case 4 => Grb(0x00, U8(step), 0xFF)
    case _ => Grb(0x00, 0xFF, U8(0xFF - step))
  }

  /** The colour section `section` gives its row j when it has ledPerSect rows. */
  function SectionRow(section: nat, ledPerSect: nat, j: nat): Grb
    requires section < NUMSECT && ledPerSect > 0
  {
    SectionColour(section, Step(ledPerSect, j))
  }

  /** Along a segment the stored colour is the wheel point 255 * section + step. */
  lemma SectionColourOnWheel(section: nat, step: int)
    requires section < NUMSECT && 0 <= step < 0xFF
    ensures 0xFF * section + step < WHEEL_STEPS
    ensures SectionColour(section, step) == WheelAt(0xFF * section + step)
  {
    DivUnique(0xFF * section + step, 0xFF, section, step);
  }

  /** Row `row` of rainbowInit's result for numLed LEDs: its section and its place in it. */
  function RainbowRow(numLed: nat, row: nat): Grb
    requires numLed % NUMSECT == 0 && NUMSECT <= numLed && row < numLed
  {
    var ledPerSect := numLed / NUMSECT;
    RowInSection(numLed, row);
    SectionRow(row / ledPerSect, ledPerSect, row % ledPerSect)
  }

  /** rows[row] viewed as a colour. */
  function Row(ints: array2<Byte>, row: nat): Grb
    requires row < ints.Length0 && ints.Length1 == 3
    reads ints
  {
    Grb(ints[row, 0], ints[row, 1], ints[row, 2])
  }

  // Facts about multiplication and division that the solver does not find alone.

  lemma {:induction false} MulAtLeast(a: int, l: int)
    requires a >= 1 && l >= 0
    ensures a * l >= l
  {
    if a > 1 {
      MulAtLeast(a - 1, l);
      assert a * l == (a - 1) * l + l;
    }
  }

  /** Whole blocks of l rows: a < b iff block a starts before block b. */
  lemma MulLess(a: int, b: int, l: int)
    requires l > 0 && a >= 0 && b >= 0
    ensures a * l < b * l <==> a < b
  {
    if a < b {
      MulAtLeast(b - a, l);
      assert b * l - a * l == (b - a) * l;
    } else if a > b {
      MulAtLeast(a - b, l);
      assert a * l - b * l == (a - b) * l;
    }
  }

  /** Quotient and remainder are unique. */
  lemma DivUnique(x: int, l: int, q: int, r: int)
    requires l > 0 && 0 <= r < l && x == q * l + r
    ensures x / l == q && x % l == r
  {
    var q', r' := x / l, x % l;
    assert x == q' * l + r';
    assert (q - q') * l == r' - r;
    if q > q' {
      MulAtLeast(q - q', l);
    } else if q < q' {
      MulAtLeast(q' - q, l);
    }
  }

  /** Every row below numLed lies in one of the six sections. */
  lemma RowInSection(numLed: nat, row: nat)
    requires numLed % NUMSECT == 0 && NUMSECT <= numLed && row < numLed
    ensures numLed / NUMSECT > 0 && row / (numLed / NUMSECT) < NUMSECT
  {
    var l := numLed / NUMSECT;
    assert numLed == NUMSECT * l;
    var q := row / l;
    assert row == q * l + row % l;
    if q >= NUMSECT {
      MulLess(q, NUMSECT, l);
      assert false;
    }
  }

  /** The step between neighbouring rows of a section stays inside one segment. */
  lemma StepBound(ledPerSect: nat, j: nat)
    requires 0 < ledPerSect <= 0xFF && j < ledPerSect
    ensures 0 <= Step(ledPerSect, j) < 0xFF
  {
    var q := 0xFF / ledPerSect;
    assert 0xFF == q * ledPerSect + 0xFF % ledPerSect;
    assert q >= 1;
    MulLess(j, ledPerSect, q);
    assert j * q < ledPerSect * q;
    assert q * j <= q * ledPerSect - q by {
      if j < ledPerSect - 1 {
        MulLess(j, ledPerSect - 1, q);
      }
      assert q * (ledPerSect - 1) == q * ledPerSect - q;
    }
  }

  /**
    Row j of a section is the wheel point 255 * section + step * j, where
    step = 0xFF / ledPerSect: no byte is truncated and the row is a wheel colour.
   */
  lemma SectionRowOnWheel(section: nat, ledPerSect: nat, j: nat)
    requires section < NUMSECT && 0 < ledPerSect <= 0xFF && j < ledPerSect
    ensures 0xFF * section + Step(ledPerSect, j) < WHEEL_STEPS
    ensures SectionRow(section, ledPerSect, j) == WheelAt(0xFF * section + Step(ledPerSect, j))
    ensures OnWheel(SectionRow(section, ledPerSect, j))
  {
    var t := Step(ledPerSect, j);
    StepBound(ledPerSect, j);
    SectionColourOnWheel(section, t);
    assert SectionRow(section, ledPerSect, j) == SectionColour(section, t);
  }

  /**
    The rows of rainbowInit's result, in order, are points of the wheel:
    section s, place j is wheel position 255 * s + (0xFF / (n / 6)) * j.
   */
  lemma RainbowRowOnWheel(numLed: nat, row: nat)
    requires numLed % NUMSECT == 0 && NUMSECT <= numLed <= 0xFF && row < numLed
    ensures OnWheel(RainbowRow(numLed, row))
    ensures WheelPos(RainbowRow(numLed, row))
      == 0xFF * (row / (numLed / NUMSECT)) + Step(numLed / NUMSECT, row % (numLed / NUMSECT))
  {
    var l := numLed / NUMSECT;
    RowInSection(numLed, row);
    SectionRowOnWheel(row / l, l, row % l);
    WheelPosAt(0xFF * (row / l) + Step(l, row % l));
  }

  /** Row j of section s sits at wheel position 255 * s + (0xFF / (n / 6)) * j. */
  lemma RowPosition(numLed: nat, section: nat, j: nat)
    requires numLed % NUMSECT == 0 && NUMSECT <= numLed <= 0xFF
    requires section < NUMSECT && j < numLed / NUMSECT
    ensures section * (numLed / NUMSECT) + j < numLed
    ensures WheelPos(RainbowRow(numLed, section * (numLed / NUMSECT) + j))
      == 0xFF * section + Step(numLed / NUMSECT, j)
  {
    var l := numLed / NUMSECT;
    RainbowRowAt(numLed, section, j);
    SectionRowOnWheel(section, l, j);
    WheelPosAt(0xFF * section + Step(l, j));
  }

  /** Consecutive steps of a section differ by 0xFF / l; the last one falls 0xFF / l + 0xFF % l short of 255. */
  lemma StepGaps(l: nat, j: nat)
    requires 0 < l && j < l
    ensures Step(l, j + 1) == Step(l, j) + 0xFF / l
    ensures j + 1 == l ==> Step(l, j) + 0xFF / l + 0xFF % l == 0xFF
  {
    var q := 0xFF / l;
    assert q * (j + 1) == q * j + q;
    if j + 1 == l {
      assert q * l == q * j + q;
    }
  }

  /**
    The wheel distance from one row of rainbowInit's result to the next:
    0xFF / (n / 6) inside a section, and 0xFF % (n / 6) more across a
    section boundary.  So the rows are evenly spaced exactly when n / 6
    divides 255.
   */
  lemma RainbowRowSpacing(numLed: nat, section: nat, j: nat)
    requires numLed % NUMSECT == 0 && NUMSECT <= numLed <= 0xFF
    requires section < NUMSECT && j < numLed / NUMSECT
    requires section * (numLed / NUMSECT) + j + 1 < numLed
    ensures var l := numLed / NUMSECT;
      var row := section * l + j;
      WheelPos(RainbowRow(numLed, row + 1)) - WheelPos(RainbowRow(numLed, row))
        == if j + 1 < l then 0xFF / l else 0xFF / l + 0xFF % l
  {
    var l := numLed / NUMSECT;
    RowPosition(numLed, section, j);
    StepGaps(l, j);
    if j + 1 < l {
      RowPosition(numLed, section, j + 1);
    } else {
      assert numLed == NUMSECT * l;
      MulLess(section + 1, NUMSECT, l);
      assert section * l + j + 1 == (section + 1) * l + 0;
      RowPosition(numLed, section + 1, 0);
    }
  }

  /** Row j of section s is row s * (n / 6) + j of the strip. */
  lemma RainbowRowAt(numLed: nat, section: nat, j: nat)
    requires numLed % NUMSECT == 0 && NUMSECT <= numLed
    requires section < NUMSECT && j < numLed / NUMSECT
    ensures section * (numLed / NUMSECT) + j < numLed
    ensures RainbowRow(numLed, section * (numLed / NUMSECT) + j) == SectionRow(section, numLed / NUMSECT, j)
  {
    var l := numLed / NUMSECT;
    assert numLed == NUMSECT * l;
    MulLess(section + 1, NUMSECT, l);
    assert (section + 1) * l == section * l + l;
    DivUnique(section * l + j, l, section, j);
  }

  /**
    rainbowInit's guards at the start of block sec: i < l * k holds exactly
    for the sections k after sec, and the block ends within the strip.
   */
  lemma BranchGuards(sec: nat, l: nat)
    requires sec < NUMSECT && l > 0
    ensures sec * l < l * 1 <==> sec < 1
    ensures sec * l < l * 2 <==> sec < 2
    ensures sec * l < l * 3 <==> sec < 3
    ensures sec * l < l * 4 <==> sec < 4
    ensures sec * l < l * 5 <==> sec < 5
    ensures sec * l < l * 6
    ensures (sec + 1) * l == sec * l + l <= NUMSECT * l
  {
    MulLess(sec, 1, l);
    MulLess(sec, 2, l);
    MulLess(sec, 3, l);
    MulLess(sec, 4, l);
    MulLess(sec, 5, l);
    MulLess(sec, 6, l);
    MulLess(sec + 1, NUMSECT + 1, l);
  }

  /** Write section number `section` (ledPerSect rows from row i on), one row per step. */
  method FillSection(ints: array2<Byte>, i: nat, ledPerSect: nat, section: nat)
    requires ints.Length1 == 3 && i + ledPerSect <= ints.Length0
    requires section < NUMSECT && ledPerSect > 0
    modifies ints
    ensures forall k :: 0 <= k < ledPerSect ==> Row(ints, i + k) == SectionRow(section, ledPerSect, k)
    ensures forall row :: 0 <= row < ints.Length0 && !(i <= row < i + ledPerSect) ==> Row(ints, row) == old(Row(ints, row))
  {
    for j := 0 to ledPerSect
      invariant forall k :: 0 <= k < j ==> Row(ints, i + k) == SectionRow(section, ledPerSect, k)
      invariant forall row :: 0 <= row < ints.Length0 && !(i <= row < i + j) ==> Row(ints, row) == old(Row(ints, row))
    {
      var c := SectionRow(section, ledPerSect, j);
      ints[i + j, 0] := c.green;
      ints[i + j, 1] := c.red;
      ints[i + j, 2] := c.blue;
      assert Row(ints, i + j) == c;
    }
  }

  /**
    One pass of rainbowInit's outer loop at row i, the start of block sec:
    the if-chain picks the section by comparing i with multiples of
    numLed / 6, sets ledPerSect and fills that section.  When no guard holds
    ledPerSect keeps the value it had (prev) and nothing is written.
   */
  method InitPass(ints: array2<Byte>, numLed: Byte, i: nat, prev: int, ghost sec: nat) returns (ledPerSect: int)
    requires ints.Length1 == 3 && numLed <= ints.Length0
    requires numLed % NUMSECT == 0 && NUMSECT <= numLed
    requires sec < NUMSECT && i == sec * (numLed / NUMSECT)
    modifies ints
    ensures ledPerSect == numLed / NUMSECT && i + ledPerSect <= numLed
    ensures forall k :: 0 <= k < ledPerSect ==> Row(ints, i + k) == SectionRow(sec, ledPerSect, k)
    ensures forall row :: 0 <= row < ints.Length0 && !(i <= row < i + ledPerSect) ==> Row(ints, row) == old(Row(ints, row))
  {
    var l := numLed / NUMSECT;
    BranchGuards(sec, l);
    ledPerSect := prev;
    if i < (numLed / NUMSECT) * 1 {
      ledPerSect := numLed / NUMSECT;
      if numLed % NUMSECT == 3 || numLed % NUMSECT == 4 || numLed % NUMSECT == 5 {
        ledPerSect := ledPerSect + 1;
      }
      FillSection(ints, i, ledPerSect, 0);
    } else if i < (numLed / NUMSECT) * 2 {
      ledPerSect := numLed / NUMSECT;
      if numLed % NUMSECT == 2 || numLed % NUMSECT == 5 {
        ledPerSect := ledPerSect + 1;
      }
      FillSection(ints, i, ledPerSect, 1);
    } else if i < (numLed / NUMSECT) * 3 {
      ledPerSect := numLed / NUMSECT;
      if numLed % NUMSECT == 3 || numLed % NUMSECT == 4 || numLed % NUMSECT == 5 {
        ledPerSect := ledPerSect + 1;
      }
      FillSection(ints, i, ledPerSect, 2);
    } else if i < (numLed / NUMSECT) * 4 {
      ledPerSect := numLed / NUMSECT;
      if numLed % NUMSECT == 5 || numLed % NUMSECT == 4 {
        ledPerSect := ledPerSect + 1;
      }
      FillSection(ints, i, ledPerSect, 3);
    } else if i < (numLed / NUMSECT) * 5 {
      ledPerSect := numLed / NUMSECT;
      if numLed % NUMSECT == 2 || numLed % NUMSECT == 3 || numLed % NUMSECT == 5 {
        ledPerSect := ledPerSect + 1;
      }
      FillSection(ints, i, ledPerSect, 4);
    } else if i < (numLed / NUMSECT) * 6 {
      ledPerSect := numLed / NUMSECT;
      if numLed % NUMSECT == 1 || numLed % NUMSECT == 4 {
        ledPerSect := ledPerSect + 1;
      }
      FillSection(ints, i, ledPerSect, 5);
    }
  }

  /**
    rainbowInit: spread numLed LEDs over the wheel, numLed / 6 per
    segment.  Only rows below numLed are written.
   */
  method RainbowInit(ints: array2<Byte>, numLed: Byte)
    requires ints.Length1 == 3 && numLed <= ints.Length0
    requires numLed % NUMSECT == 0
    modifies ints
    ensures forall row :: 0 <= row < ints.Length0 ==>
      Row(ints, row) == if row < numLed then RainbowRow(numLed, row) else old(Row(ints, row))
  {
    var l := numLed / NUMSECT;
    assert numLed == NUMSECT * l;
    var i := 0;
    var ledPerSect := 0;
    ghost var sec := 0;
    while i < numLed
      invariant 0 <= sec <= NUMSECT && i == sec * l
      invariant forall row :: 0 <= row < ints.Length0 ==>
        Row(ints, row) == if row < i then RainbowRow(numLed, row) else old(Row(ints, row))
      decreases NUMSECT - sec
    {
      BranchGuards(sec, l);
      ledPerSect := InitPass(ints, numLed, i, ledPerSect, sec);
      forall row | i <= row < i + ledPerSect
        ensures Row(ints, row) == RainbowRow(numLed, row)
      {
        var k := row - i;
        assert Row(ints, i + k) == SectionRow(sec, ledPerSect, k);
        RainbowRowAt(numLed, sec, k);
      }
      i := i + ledPerSect;
      sec := sec + 1;
    }
  }
}
