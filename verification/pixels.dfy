/**
 The integer pieces of pixel addressing: the RGGB colour-filter index, the
 every-64-rows readout check, and the electron saturation clamp. Conversion of
 electrons to a noisy digital value is floating-point work outside this model.
 */
module Pixels {
  import opened SensorTypes
  import opened Bits

  /** Full-well capacity of a pixel, in electrons. */
  const kSaturationElectrons: u32 := 2000

  /**
   Whether the render loop looks at the clock after row `y`: the test
   `(y & 63) == 0`, which holds exactly on every 64th row.
   */
  function RowChecked(y: nat): (b: bool)
    ensures b <==> y % 64 == 0
  {
    MaskLowBits(y, 6);
    BitAnd(y, 63) == 0
  }

  /**
   The entry of the RGGB selection table for pixel (x, y): the row's pair is
   chosen by `y & 1`, the entry within it by `x & 1`.
   */
  function BayerIndex(x: nat, y: nat): (i: nat)
    ensures i < 4
    ensures i == 2 * (y % 2) + x % 2
  {
    MaskLowBits(x, 1);
    MaskLowBits(y, 1);
    BitAnd(y, 1) * 2 + BitAnd(x, 1)
  }

  /** The four colour filters of a Bayer tile. */
  datatype FilterColor = Red | GreenOnRedRow | GreenOnBlueRow | Blue

  /** The selection table `{0, 1, 2, 3}` read as an RGGB arrangement. */
  const kRggb: seq<FilterColor> := [Red, GreenOnRedRow, GreenOnBlueRow, Blue]

  function FilterAt(x: nat, y: nat): FilterColor
  {
    kRggb[BayerIndex(x, y)]
  }

  /**
   The RGGB layout: red on even rows and even columns, blue on odd rows and
   odd columns, green elsewhere, distinguished by the row it sits on.
   */
  lemma RggbLayout(x: nat, y: nat)
    ensures FilterAt(x, y) == Red <==> x % 2 == 0 && y % 2 == 0
    ensures FilterAt(x, y) == GreenOnRedRow <==> x % 2 == 1 && y % 2 == 0
    ensures FilterAt(x, y) == GreenOnBlueRow <==> x % 2 == 0 && y % 2 == 1
    ensures FilterAt(x, y) == Blue <==> x % 2 == 1 && y % 2 == 1
  {
  }

  /** The pattern repeats every two pixels in both directions. */
  lemma BayerPeriodic(x: nat, y: nat)
    ensures FilterAt(x + 2, y) == FilterAt(x, y)
    ensures FilterAt(x, y + 2) == FilterAt(x, y)
  {
  }

  /**
   The pixel saturation curve: electron counts above full well are cut to
   full well; counts below it pass unchanged.
   */
  function ClampElectrons(e: u32): (r: u32)
    ensures r <= kSaturationElectrons
    ensures e <= kSaturationElectrons ==> r == e
    ensures e >= kSaturationElectrons ==> r == kSaturationElectrons
  {
    if e < kSaturationElectrons then e else kSaturationElectrons
  }
}
