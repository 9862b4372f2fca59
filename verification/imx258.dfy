/**
 * Unit conversions of the IMX258 camera sensor driver
 * (drivers/media/platform/exynos/camera/sensor/module_framework/cis/is-cis-imx258.c):
 * analog gain between permille and register code, the clamping of gain,
 * frame rate, frame duration and coarse integration time, and the rounding
 * of the maximum frame rate.  Register writes over I2C are replaced by their
 * return code, passed in as a parameter.
 *
 * All arithmetic is the C arithmetic of the driver: u16/u32/u64 with
 * wrap-around and truncating division.
 */
module Imx258 {
  import opened KernelTypes
  import opened Arith

  /** The gain law of the sensor: gain = 512 / (512 - code), expressed in permille. */
  const AGAIN_NUMERATOR: nat := 512 * 1000

  /** The analog-gain code range the driver reports: 0 (x1) up to 480 (x16). */
  const AGAIN_CODE_MIN: u32 := 0
  const AGAIN_CODE_MAX: u32 := 480

  /**
   * Permille gain to register code.  For requests of at least 999 permille
   * the code is the least one whose gain reaches the request; below that the
   * u32 subtraction `512 - 512000/permile` wraps to a huge code.
   */
  function CalcAgainCode(permile: u32): (code: u32)
    ensures permile == 0 ==> code == 0
    ensures 999 <= permile ==> code <= 512
    ensures AGAIN_NUMERATOR < permile ==> code == 512
    ensures 0 < permile <= 998 ==> code >= U32_LIMIT - 511488
  {
    if permile > 0 then
      AgainQuotientBounds(permile);
      Sub32(512, AGAIN_NUMERATOR / permile)
    else
      0
  }

  /** For requests of 999 ..= 512000 permille the code is the least one whose exact gain reaches the request. */
  lemma AgainCodeLeastReaching(permile: u32)
    requires 999 <= permile <= AGAIN_NUMERATOR
    ensures CalcAgainCode(permile) < 512
    ensures permile * (512 - CalcAgainCode(permile)) <= AGAIN_NUMERATOR < permile * (513 - CalcAgainCode(permile))
  {
    AgainQuotientBounds(permile);
    DivBounds(AGAIN_NUMERATOR, permile);
    var q := AGAIN_NUMERATOR / permile;
    assert 512 - CalcAgainCode(permile) == q;
  }

  /** Where `512000 / permile` lies relative to the 512 codes. */
  lemma AgainQuotientBounds(permile: u32)
    requires 0 < permile
    ensures 999 <= permile ==> AGAIN_NUMERATOR / permile <= 512
    ensures permile <= 998 ==> AGAIN_NUMERATOR / permile >= 513
    ensures permile <= AGAIN_NUMERATOR ==> AGAIN_NUMERATOR / permile >= 1
    ensures AGAIN_NUMERATOR < permile ==> AGAIN_NUMERATOR / permile == 0
    ensures AGAIN_NUMERATOR / permile <= AGAIN_NUMERATOR
  {
    DivAntitone(AGAIN_NUMERATOR, 1, permile);
    if AGAIN_NUMERATOR < permile {
      DivUnique(AGAIN_NUMERATOR, permile, 0, AGAIN_NUMERATOR);
    }
    if permile >= 999 {
      DivAntitone(AGAIN_NUMERATOR, 999, permile);
    } else {
      DivAntitone(AGAIN_NUMERATOR, permile, 998);
    }
    if permile <= AGAIN_NUMERATOR {
      DivMonotone(permile, AGAIN_NUMERATOR, permile);
    }
  }

  /** Register code to permille gain, truncated; codes of 512 and above read as x1. */
  function CalcAgainPermile(code: u32): (permile: u32)
    ensures code < 512 ==>
      1000 <= permile <= AGAIN_NUMERATOR
      && permile * (512 - code) <= AGAIN_NUMERATOR < (permile + 1) * (512 - code)
    ensures 512 <= code ==> permile == 1000
  {
    if code < 512 then
      var d := 512 - code;
      DivBounds(AGAIN_NUMERATOR, d);
      DivAntitone(AGAIN_NUMERATOR, d, 512);
      DivAntitone(AGAIN_NUMERATOR, 1, d);
      AGAIN_NUMERATOR / d
    else
      1000
  }

  /** The driver's fixed code range maps to x1 and x16. */
  lemma AgainRangeEndpoints()
    ensures CalcAgainPermile(AGAIN_CODE_MIN) == 1000
    ensures CalcAgainPermile(AGAIN_CODE_MAX) == 16000
    ensures CalcAgainCode(1000) == AGAIN_CODE_MIN
    ensures CalcAgainCode(16000) == AGAIN_CODE_MAX
  {
  }

  /** Every code below 512 survives the trip through permille unchanged. */
  lemma {:induction false} AgainCodeRoundTrip(code: u32)
    requires code < 512
    ensures CalcAgainCode(CalcAgainPermile(code)) == code
  {
    var d := 512 - code;
    var p := CalcAgainPermile(code);
    var r := AGAIN_NUMERATOR % d;
    assert AGAIN_NUMERATOR == p * d + r;
    DivUnique(AGAIN_NUMERATOR, p, d, r);
  }

  /** A request of at least 999 permille is rounded up to a representable gain, never down. */
  lemma {:induction false} AgainPermileRoundsUp(permile: u32)
    requires 999 <= permile <= AGAIN_NUMERATOR
    ensures CalcAgainPermile(CalcAgainCode(permile)) >= permile
  {
    var code := CalcAgainCode(permile);
    var d := 512 - code;
    DivUnique(permile * d, d, permile, 0);
    DivMonotone(permile * d, AGAIN_NUMERATOR, d);
  }

  /** A larger code never means a smaller gain. */
  lemma {:induction false} AgainPermileMonotone(c1: u32, c2: u32)
    requires c1 <= c2 < 512
    ensures CalcAgainPermile(c1) <= CalcAgainPermile(c2)
  {
    DivAntitone(AGAIN_NUMERATOR, 512 - c2, 512 - c1);
  }

  /** The clamping of adjust_analog_gain: above the maximum wins first, then below the minimum. */
  function ClampAgainCode(code: u32, minCode: u32, maxCode: u32): (c: u32)
    ensures code > maxCode ==> c == maxCode
    ensures code <= maxCode ==> c == if code < minCode then minCode else code
    ensures minCode <= maxCode ==> minCode <= c <= maxCode
  {
    if code > maxCode then maxCode
    else if code < minCode then minCode
    else code
  }

  /**
   * sensor_imx258_cis_adjust_analog_gain: the gain actually applied for a
   * requested permille gain, given the code range held in cis_data.
   */
  function AdjustAnalogGain(inputAgain: u32, minCode: u32, maxCode: u32): (permile: u32)
    ensures minCode <= maxCode < 512 ==>
      CalcAgainPermile(minCode) <= permile <= CalcAgainPermile(maxCode)
    ensures minCode <= maxCode < 512 ==>
      minCode <= CalcAgainCode(permile) <= maxCode
  {
    var code := ClampAgainCode(CalcAgainCode(inputAgain), minCode, maxCode);
    ClampedPermileInRange(code, minCode, maxCode);
    CalcAgainPermile(code)
  }

  /** The gain of a code inside the range lies between the gains of the bounds and reads back as that code. */
  lemma ClampedPermileInRange(code: u32, minCode: u32, maxCode: u32)
    requires minCode <= maxCode < 512 ==> minCode <= code <= maxCode
    ensures minCode <= maxCode < 512 ==>
      && CalcAgainPermile(minCode) <= CalcAgainPermile(code) <= CalcAgainPermile(maxCode)
      && CalcAgainCode(CalcAgainPermile(code)) == code
  {
    if minCode <= maxCode < 512 {
      AgainPermileMonotone(minCode, code);
      AgainPermileMonotone(code, maxCode);
      AgainCodeRoundTrip(code);
    }
  }

  /** With the driver's range every adjusted gain lies between x1 and x16. */
  lemma AdjustAnalogGainFixedRange(inputAgain: u32)
    ensures 1000 <= AdjustAnalogGain(inputAgain, AGAIN_CODE_MIN, AGAIN_CODE_MAX) <= 16000
  {
    AgainRangeEndpoints();
  }

  /** A gain the sensor can represent within the range is returned unchanged. */
  lemma {:induction false} AdjustAnalogGainKeepsRepresentable(code: u32, minCode: u32, maxCode: u32)
    requires minCode <= code <= maxCode < 512
    ensures AdjustAnalogGain(CalcAgainPermile(code), minCode, maxCode) == CalcAgainPermile(code)
  {
    AgainCodeRoundTrip(code);
  }

  /** Adjusting an already adjusted gain changes nothing. */
  lemma {:induction false} AdjustAnalogGainIdempotent(inputAgain: u32, minCode: u32, maxCode: u32)
    requires minCode <= maxCode < 512
    ensures AdjustAnalogGain(AdjustAnalogGain(inputAgain, minCode, maxCode), minCode, maxCode)
         == AdjustAnalogGain(inputAgain, minCode, maxCode)
  {
    var code := ClampAgainCode(CalcAgainCode(inputAgain), minCode, maxCode);
    AdjustAnalogGainKeepsRepresentable(code, minCode, maxCode);
  }

  /**
   * As written, a request below x1 (1 ..= 998 permille) wraps to a huge code
   * and is clamped to the MAXIMUM gain.
   */
  lemma {:induction false} AdjustAnalogGainSubUnityJumpsToMax(inputAgain: u32, minCode: u32, maxCode: u32)
    requires 0 < inputAgain <= 998
    requires maxCode < 512
    ensures AdjustAnalogGain(inputAgain, minCode, maxCode) == CalcAgainPermile(maxCode)
  {
  }

  /** The concrete consequence: half gain becomes x16 while x1 stays x1, so the map is not monotone. */
  lemma AdjustAnalogGainNotMonotone()
    ensures AdjustAnalogGain(500, AGAIN_CODE_MIN, AGAIN_CODE_MAX) == 16000
    ensures AdjustAnalogGain(1000, AGAIN_CODE_MIN, AGAIN_CODE_MAX) == 1000
  {
    AdjustAnalogGainSubUnityJumpsToMax(500, AGAIN_CODE_MIN, AGAIN_CODE_MAX);
    AgainRangeEndpoints();
  }

  /** Permille to code with requests below x1 saturating at code 0 instead of wrapping. */
  function CalcAgainCodeSaturating(permile: u32): (code: u32)
    ensures code <= 512
    ensures permile < 1000 ==> code == 0
    ensures 999 <= permile ==> code == CalcAgainCode(permile)
  {
    if permile < 1000 then 0 else CalcAgainCode(permile)
  }

  /** The saturating code is monotone in the requested gain. */
  lemma {:induction false} AgainCodeSaturatingMonotone(p1: u32, p2: u32)
    requires p1 <= p2
    ensures CalcAgainCodeSaturating(p1) <= CalcAgainCodeSaturating(p2)
  {
    if 1000 <= p1 {
      DivAntitone(AGAIN_NUMERATOR, p1, p2);
    }
  }

  /** adjust_analog_gain as evidently intended: sub-unity requests clamp to the minimum gain. */
  function AdjustAnalogGainSaturating(inputAgain: u32, minCode: u32, maxCode: u32): (permile: u32)
    ensures minCode <= maxCode < 512 ==>
      CalcAgainPermile(minCode) <= permile <= CalcAgainPermile(maxCode)
    ensures minCode <= maxCode && inputAgain < 1000 ==> permile == CalcAgainPermile(minCode)
    ensures 1000 <= inputAgain ==> permile == AdjustAnalogGain(inputAgain, minCode, maxCode)
  {
    var code := ClampAgainCode(CalcAgainCodeSaturating(inputAgain), minCode, maxCode);
    ClampedPermileInRange(code, minCode, maxCode);
    CalcAgainPermile(code)
  }

  /** The corrected adjustment never gives a larger request a smaller gain. */
  lemma {:induction false} AdjustAnalogGainSaturatingMonotone(p1: u32, p2: u32, minCode: u32, maxCode: u32)
    requires p1 <= p2
    requires minCode <= maxCode < 512
    ensures AdjustAnalogGainSaturating(p1, minCode, maxCode) <= AdjustAnalogGainSaturating(p2, minCode, maxCode)
  {
    AgainCodeSaturatingMonotone(p1, p2);
    var c1 := ClampAgainCode(CalcAgainCodeSaturating(p1), minCode, maxCode);
    var c2 := ClampAgainCode(CalcAgainCodeSaturating(p2), minCode, maxCode);
    AgainPermileMonotone(c1, c2);
  }

  /** The part of cis_shared_data the conversions read and write. */
  datatype CisData = CisData(
    pclk: u64,
    lineLengthPck: u32,
    frameLengthLines: u32,
    minFrameUsTime: u32,
    curFrameUsTime: u32,
    maxFps: u32,
    minFineIntegrationTime: u32,
    maxFineIntegrationTime: u32,
    minCoarseIntegrationTime: u32,
    maxCoarseIntegrationTime: u32,
    maxMarginCoarseIntegrationTime: u32)

  /**
   * The SENSOR_IMX258_* integration-time constants: fine minimum and
   * maximum, coarse minimum and the coarse margin.  Their values live in a
   * header that is not part of this model.
   */
  datatype IntegrationLimits = IntegrationLimits(minFine: u32, maxFine: u32, minCoarse: u32, maxMarginCoarse: u32)

  /** `pclk / 1000`: the pixel clock in kHz. */
  function PclkKhz(cis: CisData): (khz: u64)
    ensures khz * 1000 <= cis.pclk < (khz + 1) * 1000
  {
    DivBounds(cis.pclk, 1000);
    cis.pclk / 1000
  }

  /** `frame_length_lines * line_length_pck`, a product of two u32 values taken in u32. */
  function PixelsPerFrame(frameLengthLines: u32, lineLengthPck: u32): (pixels: u32)
    ensures frameLengthLines * lineLengthPck < U32_LIMIT ==> pixels == frameLengthLines * lineLengthPck
  {
    Trunc32(Product(frameLengthLines, lineLengthPck))
  }

  /** Frame rate of a PLL setting: `pclk / pixels`, stored into a u32. */
  function FrameRate(pclk: u64, pixels: u32): (fps: u32)
    requires pixels != 0
  {
    Trunc32(Quotient(pclk, pixels))
  }

  /**
   * The max_fps lines of sensor_imx258_cis_data_calculation: the frame rate,
   * plus one when the first decimal of the exact rate is 5 or more.
   */
  function MaxFps(pclk: u64, pixels: u32): (maxFps: u32)
    requires pixels != 0
    ensures maxFps == FrameRate(pclk, pixels) || maxFps == Trunc32(FrameRate(pclk, pixels) + 1)
  {
    var frameRate := FrameRate(pclk, pixels);
    var tenths: u32 := Trunc32(Quotient(Trunc64(pclk * 10), pixels));
    if tenths % 10 >= 5 then Trunc32(frameRate + 1) else frameRate
  }

  /** Ten times a quotient splits into ten times the integer part plus the first decimal. */
  lemma {:induction false} TenthsSplit(n: nat, d: nat)
    requires 0 < d
    ensures (10 * n) / d == 10 * (n / d) + (10 * (n % d)) / d
    ensures (10 * (n % d)) / d < 10
  {
    DivNonneg(n, d);
    var q, r := n / d, n % d;
    assert n == q * d + r;
    assert 10 * n == (10 * q) * d + 10 * r;
    DivOfSum(10 * n, d, 10 * q, 10 * r);
    DivLess(10 * r, d, 10);
  }

  /** The first decimal of r/d (for r < d) is 5 or more exactly when r is at least half of d. */
  lemma {:induction false} FirstDecimalAtLeastFive(r: nat, d: nat)
    requires r < d
    ensures (10 * r) / d >= 5 <==> 2 * r >= d
  {
    if 2 * r >= d {
      DivMonotone(5 * d, 10 * r, d);
      DivUnique(5 * d, d, 5, 0);
    } else {
      DivLess(10 * r, d, 5);
    }
  }

  /** Rounding half up: adding half a divisor before dividing. */
  lemma {:induction false} RoundHalfUp(n: nat, d: nat)
    requires 0 < d
    ensures 2 * (n % d) >= d ==> (2 * n + d) / (2 * d) == n / d + 1
    ensures 2 * (n % d) < d ==> (2 * n + d) / (2 * d) == n / d
  {
    DivNonneg(n, d);
    var q, r := n / d, n % d;
    assert n == q * d + r;
    assert 2 * n + d == q * (2 * d) + (2 * r + d);
    if 2 * r >= d {
      assert 2 * n + d == (q + 1) * (2 * d) + (2 * r - d);
      DivUnique(2 * n + d, 2 * d, q + 1, 2 * r - d);
    } else {
      DivUnique(2 * n + d, 2 * d, q, 2 * r + d);
    }
  }

  /** Without overflow, the tenths quotient and the frame rate are computed exactly. */
  lemma {:induction false} MaxFpsWithoutWrap(pclk: u64, pixels: u32)
    requires 0 < pixels
    requires pclk * 10 < U64_LIMIT
    requires 10 * (pclk / pixels) + 10 < U32_LIMIT
    ensures MaxFps(pclk, pixels)
         == if ((10 * pclk) / pixels) % 10 >= 5 then pclk / pixels + 1 else pclk / pixels
  {
    TenthsSplit(pclk, pixels);
    DivNonneg(pclk, pixels);
    DivNonneg(10 * pclk, pixels);
    assert Trunc64(pclk * 10) == 10 * pclk;
    assert Trunc32((10 * pclk) / pixels) == (10 * pclk) / pixels;
    assert FrameRate(pclk, pixels) == pclk / pixels;
  }

  /** The first decimal of n/d is the first decimal of its fractional part. */
  lemma {:induction false} FirstDecimalOfRest(n: nat, d: nat)
    requires 0 < d
    ensures ((10 * n) / d) % 10 == (10 * (n % d)) / d
  {
    TenthsSplit(n, d);
    DivNonneg(n, d);
    DivNonneg(10 * (n % d), d);
    var tenths := (10 * n) / d;
    DivUnique(tenths, 10, n / d, (10 * (n % d)) / d);
  }

  /** Testing the first decimal against 5 is the same as rounding half up. */
  lemma {:induction false} FirstDecimalRounding(n: nat, d: nat)
    requires 0 < d
    ensures (if ((10 * n) / d) % 10 >= 5 then n / d + 1 else n / d) == (2 * n + d) / (2 * d)
  {
    FirstDecimalOfRest(n, d);
    FirstDecimalAtLeastFive(n % d, d);
    RoundHalfUp(n, d);
  }

  /** Without overflow, max_fps is the exact frame rate rounded half up. */
  lemma {:induction false} MaxFpsRoundsHalfUp(pclk: u64, pixels: u32)
    requires 0 < pixels
    requires pclk * 10 < U64_LIMIT
    requires 10 * (pclk / pixels) + 10 < U32_LIMIT
    ensures MaxFps(pclk, pixels) == (2 * pclk + pixels) / (2 * pixels)
  {
    MaxFpsWithoutWrap(pclk, pixels);
    FirstDecimalRounding(pclk, pixels);
  }

  /**
   * The timing fields sensor_imx258_cis_data_calculation derives from a PLL
   * setting: the minimum (and current) frame time in microseconds and
   * max_fps; it also installs the sensor's integration-time constants.
   */
  function DataCalculation(pclk: u64, frameLengthLines: u32, lineLengthPck: u32, limits: IntegrationLimits,
                           cis: CisData): (r: CisData)
    requires pclk / 1000 != 0
    requires PixelsPerFrame(frameLengthLines, lineLengthPck) != 0
    ensures r.minFrameUsTime == r.curFrameUsTime
    ensures r.maxFps == MaxFps(pclk, PixelsPerFrame(frameLengthLines, lineLengthPck))
    ensures r.minFineIntegrationTime == limits.minFine && r.maxFineIntegrationTime == limits.maxFine
    ensures r.minCoarseIntegrationTime == limits.minCoarse && r.maxMarginCoarseIntegrationTime == limits.maxMarginCoarse
    ensures r == cis.(pclk := pclk, frameLengthLines := frameLengthLines, lineLengthPck := lineLengthPck,
                      minFrameUsTime := r.minFrameUsTime, curFrameUsTime := r.curFrameUsTime,
                      maxFps := r.maxFps,
                      minFineIntegrationTime := r.minFineIntegrationTime,
                      maxFineIntegrationTime := r.maxFineIntegrationTime,
                      minCoarseIntegrationTime := r.minCoarseIntegrationTime,
                      maxMarginCoarseIntegrationTime := r.maxMarginCoarseIntegrationTime)
  {
    var frameUs := Trunc32(Quotient(Trunc64(Product(frameLengthLines, lineLengthPck) * 1000), pclk / 1000));
    cis.(pclk := pclk, frameLengthLines := frameLengthLines, lineLengthPck := lineLengthPck,
         minFrameUsTime := frameUs, curFrameUsTime := frameUs,
         maxFps := MaxFps(pclk, PixelsPerFrame(frameLengthLines, lineLengthPck)),
         minFineIntegrationTime := limits.minFine, maxFineIntegrationTime := limits.maxFine,
         minCoarseIntegrationTime := limits.minCoarse, maxMarginCoarseIntegrationTime := limits.maxMarginCoarse)
  }

  /**
   * Without overflow, the minimum frame time is the frame's length in whole
   * microseconds, and it is the duration adjust_frame_duration gives a frame
   * of the setting's length.
   */
  lemma {:induction false} DataCalculationFrameTime(pclk: u64, frameLengthLines: u32, lineLengthPck: u32,
                                                    limits: IntegrationLimits, cis: CisData)
    requires pclk / 1000 != 0
    requires frameLengthLines * lineLengthPck * 1000 < U64_LIMIT
    requires frameLengthLines * lineLengthPck * 1000 / (pclk / 1000) < U32_LIMIT
    requires PixelsPerFrame(frameLengthLines, lineLengthPck) != 0
    ensures
      var r := DataCalculation(pclk, frameLengthLines, lineLengthPck, limits, cis);
      && r.minFrameUsTime * PclkKhz(r) <= frameLengthLines * lineLengthPck * 1000
      && frameLengthLines * lineLengthPck * 1000 < (r.minFrameUsTime + 1) * PclkKhz(r)
      && FrameDurationOfLines(frameLengthLines, r) == r.minFrameUsTime
  {
    var r := DataCalculation(pclk, frameLengthLines, lineLengthPck, limits, cis);
    var n := frameLengthLines * lineLengthPck * 1000;
    var khz := pclk / 1000;
    MulMonotone(1, 1000, frameLengthLines * lineLengthPck);
    assert Product(frameLengthLines, lineLengthPck) * 1000 == n;
    assert Trunc64(Product(frameLengthLines, lineLengthPck)) == frameLengthLines * lineLengthPck;
    DivBounds(n, khz);
    assert r.minFrameUsTime == n / khz;
    assert PclkKhz(r) == khz;
  }

  /**
   * sensor_imx258_cis_adjust_frame_duration: the frame duration needed for an
   * exposure (0 meaning "use the minimum frame time"), never below the minimum.
   */
  function AdjustFrameDuration(inputExposureTime: u32, cis: CisData): (duration: u32)
    requires cis.lineLengthPck != 0
    requires PclkKhz(cis) != 0
    ensures duration >= cis.minFrameUsTime
    ensures duration >= FrameDurationOfLines(ExposureLines(inputExposureTime, cis), cis)
    ensures duration == cis.minFrameUsTime
         || duration == FrameDurationOfLines(ExposureLines(inputExposureTime, cis), cis)
  {
    var lines := ExposureLines(inputExposureTime, cis);
    var frameDuration := FrameDurationOfLines(lines, cis);
    if frameDuration > cis.minFrameUsTime then frameDuration else cis.minFrameUsTime
  }

  /** The frame length (in lines) holding an exposure, plus the coarse-integration margin. */
  function ExposureLines(inputExposureTime: u32, cis: CisData): (lines: u32)
    requires cis.lineLengthPck != 0
  {
    var exposure := if inputExposureTime == 0 then cis.minFrameUsTime else inputExposureTime;
    var lines := Trunc32(Quotient(Trunc64(Product(PclkKhz(cis), exposure)) / 1000, cis.lineLengthPck));
    Trunc32(lines + cis.maxMarginCoarseIntegrationTime)
  }

  /** The duration in microseconds of a frame of `lines` lines. */
  function FrameDurationOfLines(lines: u32, cis: CisData): (duration: u32)
    requires PclkKhz(cis) != 0
  {
    Trunc32(Quotient(Trunc64(Trunc64(Product(lines, cis.lineLengthPck)) * 1000), PclkKhz(cis)))
  }

  /** An exposure of 0 is treated exactly like the minimum frame time. */
  lemma AdjustFrameDurationZeroIsMin(cis: CisData)
    requires cis.lineLengthPck != 0
    requires PclkKhz(cis) != 0
    ensures AdjustFrameDuration(0, cis) == AdjustFrameDuration(cis.minFrameUsTime, cis)
  {
  }

  /** Without overflow, a longer exposure never gets a shorter frame. */
  lemma {:induction false} AdjustFrameDurationMonotone(e1: u32, e2: u32, cis: CisData)
    requires 0 < e1 <= e2
    requires cis.lineLengthPck != 0
    requires PclkKhz(cis) != 0
    requires PclkKhz(cis) * e2 < U64_LIMIT
    requires PclkKhz(cis) * e2 / 1000 / cis.lineLengthPck + cis.maxMarginCoarseIntegrationTime < U32_LIMIT
    requires (PclkKhz(cis) * e2 / 1000 / cis.lineLengthPck + cis.maxMarginCoarseIntegrationTime)
             * cis.lineLengthPck * 1000 < U64_LIMIT
    requires (PclkKhz(cis) * e2 / 1000 / cis.lineLengthPck + cis.maxMarginCoarseIntegrationTime)
             * cis.lineLengthPck * 1000 / PclkKhz(cis) < U32_LIMIT
    ensures AdjustFrameDuration(e1, cis) <= AdjustFrameDuration(e2, cis)
  {
    var k, llp, m := PclkKhz(cis), cis.lineLengthPck, cis.maxMarginCoarseIntegrationTime;
    MulMonotone(e1, e2, k);
    assert k * e1 <= k * e2;
    DivMonotone(k * e1, k * e2, 1000);
    DivMonotone(k * e1 / 1000, k * e2 / 1000, llp);
    var l1, l2 := k * e1 / 1000 / llp + m, k * e2 / 1000 / llp + m;
    assert ExposureLines(e1, cis) == l1;
    assert ExposureLines(e2, cis) == l2;
    MulMonotone(l1, l2, llp);
    MulMonotone(l1 * llp, l2 * llp, 1000);
    assert l1 * llp * 1000 <= l2 * llp * 1000;
    DivMonotone(l1 * llp * 1000, l2 * llp * 1000, k);
    assert FrameDurationOfLines(l1, cis) == l1 * llp * 1000 / k;
    assert FrameDurationOfLines(l2, cis) == l2 * llp * 1000 / k;
  }

  /**
   * sensor_imx258_cis_set_frame_duration: raise the duration to the minimum,
   * program `frame_length_lines` (truncated to u16) and, when the register
   * write succeeds, record the new timing.  `writeRet` is the I2C result.
   */
  function SetFrameDuration(frameDuration: u32, cis: CisData, writeRet: int): (r: (CisData, int))
    requires Trunc32(cis.lineLengthPck * 1000) != 0
    ensures r.1 == writeRet
    ensures writeRet < 0 ==> r.0 == cis
    ensures writeRet >= 0 ==>
      var duration := if frameDuration < cis.minFrameUsTime then cis.minFrameUsTime else frameDuration;
      && r.0.curFrameUsTime == duration
      && r.0.curFrameUsTime >= cis.minFrameUsTime
      && r.0.frameLengthLines == FrameLengthLines(duration, cis)
      && r.0.frameLengthLines < U16_LIMIT
      && r.0.maxCoarseIntegrationTime == Sub32(r.0.frameLengthLines, cis.maxMarginCoarseIntegrationTime)
      && r.0 == cis.(curFrameUsTime := r.0.curFrameUsTime, frameLengthLines := r.0.frameLengthLines,
                    maxCoarseIntegrationTime := r.0.maxCoarseIntegrationTime)
  {
    var duration := if frameDuration < cis.minFrameUsTime then cis.minFrameUsTime else frameDuration;
    var lines := FrameLengthLines(duration, cis);
    if writeRet < 0 then (cis, writeRet)
    else
      (cis.(curFrameUsTime := duration, frameLengthLines := lines,
            maxCoarseIntegrationTime := Sub32(lines, cis.maxMarginCoarseIntegrationTime)),
       writeRet)
  }

  /** `(u16)((pclk_khz * duration) / (line_length_pck * 1000))`. */
  function FrameLengthLines(duration: u32, cis: CisData): (lines: u16)
    requires Trunc32(cis.lineLengthPck * 1000) != 0
  {
    Trunc16(Quotient(Trunc64(Product(PclkKhz(cis), duration)), Trunc32(cis.lineLengthPck * 1000)))
  }

  /**
   * Without overflow, the frame length is the number of whole lines of
   * line_length_pck pixels that fit in the duration at the pixel clock.
   */
  lemma {:induction false} FrameLengthLinesWholeLines(duration: u32, cis: CisData)
    requires 0 < cis.lineLengthPck && cis.lineLengthPck * 1000 < U32_LIMIT
    requires PclkKhz(cis) * duration < U64_LIMIT
    requires PclkKhz(cis) * duration / (cis.lineLengthPck * 1000) < U16_LIMIT
    ensures Trunc32(cis.lineLengthPck * 1000) != 0
    ensures FrameLengthLines(duration, cis) * cis.lineLengthPck * 1000 <= PclkKhz(cis) * duration
    ensures PclkKhz(cis) * duration < (FrameLengthLines(duration, cis) + 1) * cis.lineLengthPck * 1000
  {
    var d := cis.lineLengthPck * 1000;
    var n := PclkKhz(cis) * duration;
    assert Trunc32(d) == d;
    assert Trunc64(Product(PclkKhz(cis), duration)) == n;
    DivBounds(n, d);
    var l := FrameLengthLines(duration, cis);
    assert l == n / d;
    assert l * cis.lineLengthPck * 1000 == l * d;
    assert (l + 1) * cis.lineLengthPck * 1000 == (l + 1) * d;
  }

  /**
   * Without overflow, a successful set_frame_duration programs the longest
   * whole-line frame that fits in the recorded duration: one line more would
   * not fit, and that frame lasts no longer than the duration.
   */
  lemma {:induction false} SetFrameDurationWholeLines(frameDuration: u32, cis: CisData, writeRet: int)
    requires writeRet >= 0
    requires 0 < cis.lineLengthPck && cis.lineLengthPck * 1000 < U32_LIMIT && PclkKhz(cis) != 0
    requires PclkKhz(cis) * frameDuration < U64_LIMIT && PclkKhz(cis) * cis.minFrameUsTime < U64_LIMIT
    requires PclkKhz(cis) * frameDuration / (cis.lineLengthPck * 1000) < U16_LIMIT
    requires PclkKhz(cis) * cis.minFrameUsTime / (cis.lineLengthPck * 1000) < U16_LIMIT
    ensures Trunc32(cis.lineLengthPck * 1000) != 0
    ensures
      var r := SetFrameDuration(frameDuration, cis, writeRet).0;
      && r.frameLengthLines * cis.lineLengthPck * 1000 <= PclkKhz(cis) * r.curFrameUsTime
      && PclkKhz(cis) * r.curFrameUsTime < (r.frameLengthLines + 1) * cis.lineLengthPck * 1000
      && FrameDurationOfLines(r.frameLengthLines, cis) <= r.curFrameUsTime
  {
    var duration := if frameDuration < cis.minFrameUsTime then cis.minFrameUsTime else frameDuration;
    FrameLengthLinesWholeLines(duration, cis);
    var r := SetFrameDuration(frameDuration, cis, writeRet).0;
    assert r.curFrameUsTime == duration && r.frameLengthLines == FrameLengthLines(duration, cis);
    FrameDurationOfLinesWithin(r.frameLengthLines, duration, cis);
  }

  /** A frame of lines that fit in a duration lasts no longer than that duration. */
  lemma {:induction false} FrameDurationOfLinesWithin(lines: u32, duration: u32, cis: CisData)
    requires PclkKhz(cis) != 0
    requires lines * cis.lineLengthPck * 1000 <= PclkKhz(cis) * duration < U64_LIMIT
    ensures FrameDurationOfLines(lines, cis) <= duration
  {
    var khz, n := PclkKhz(cis), lines * cis.lineLengthPck * 1000;
    MulMonotone(1, 1000, lines * cis.lineLengthPck);
    assert Trunc64(Product(lines, cis.lineLengthPck)) == lines * cis.lineLengthPck;
    assert Trunc64(Trunc64(Product(lines, cis.lineLengthPck)) * 1000) == n;
    DivMonotone(n, khz * duration, khz);
    DivUnique(khz * duration, khz, duration, 0);
  }

  /** The frame rate set_frame_rate actually applies: capped at max_fps, and 0 raised to 1. */
  function EffectiveFps(minFps: u32, maxFps: u32): (fps: u32)
    ensures 1 <= fps
    ensures minFps == 0 ==> fps == 1
    ensures fps <= maxFps || fps == 1
    ensures 0 < minFps <= maxFps ==> fps == minFps
    ensures minFps > maxFps && maxFps > 0 ==> fps == maxFps
  {
    var capped := if minFps > maxFps then maxFps else minFps;
    if capped == 0 then 1 else capped
  }

  /**
   * sensor_imx258_cis_set_frame_rate: convert the (clamped) rate to a frame
   * duration of 1000000/fps microseconds, program it, and on success make it
   * the new minimum frame time.
   */
  function SetFrameRate(minFps: u32, cis: CisData, writeRet: int): (r: (CisData, int))
    requires Trunc32(cis.lineLengthPck * 1000) != 0
    ensures r.1 == writeRet
    ensures writeRet < 0 ==> r.0 == cis
    ensures writeRet >= 0 ==>
      && r.0.minFrameUsTime == 1000000 / EffectiveFps(minFps, cis.maxFps)
      && r.0.minFrameUsTime <= 1000000
      && r.0.curFrameUsTime >= cis.minFrameUsTime
    ensures writeRet >= 0 ==>
      r.0 == SetFrameDuration(1000000 / EffectiveFps(minFps, cis.maxFps), cis, writeRet).0
               .(minFrameUsTime := 1000000 / EffectiveFps(minFps, cis.maxFps))
  {
    var fps := EffectiveFps(minFps, cis.maxFps);
    var duration: u32 := 1000000 / fps;
    var (cis', ret) := SetFrameDuration(duration, cis, writeRet);
    if ret < 0 then (cis', ret)
    else (cis'.(minFrameUsTime := duration), ret)
  }

  /** A faster requested rate is never applied as a slower one. */
  lemma EffectiveFpsMonotone(f1: u32, f2: u32, maxFps: u32)
    requires f1 <= f2
    ensures EffectiveFps(f1, maxFps) <= EffectiveFps(f2, maxFps)
  {
  }

  /**
   * A successful set_frame_rate makes the minimum frame time the longest
   * whole number of microseconds a frame at the applied rate can last, and
   * never shorter than max_fps allows.
   */
  lemma {:induction false} SetFrameRateWholeMicroseconds(minFps: u32, cis: CisData, writeRet: int)
    requires Trunc32(cis.lineLengthPck * 1000) != 0
    requires writeRet >= 0
    ensures
      var fps := EffectiveFps(minFps, cis.maxFps);
      var t := SetFrameRate(minFps, cis, writeRet).0.minFrameUsTime;
      && t * fps <= 1000000 < (t + 1) * fps
      && (0 < cis.maxFps ==> 1000000 / cis.maxFps <= t)
  {
    var fps := EffectiveFps(minFps, cis.maxFps);
    assert SetFrameRate(minFps, cis, writeRet).0.minFrameUsTime == 1000000 / fps;
    DivBounds(1000000, fps);
    if 0 < cis.maxFps {
      DivAntitone(1000000, fps, cis.maxFps);
    }
  }

  /** Asking for a higher frame rate never lengthens the minimum frame time. */
  lemma {:induction false} SetFrameRateAntitone(f1: u32, f2: u32, cis: CisData, w1: int, w2: int)
    requires Trunc32(cis.lineLengthPck * 1000) != 0
    requires f1 <= f2 && w1 >= 0 && w2 >= 0
    ensures SetFrameRate(f2, cis, w2).0.minFrameUsTime <= SetFrameRate(f1, cis, w1).0.minFrameUsTime
  {
    EffectiveFpsMonotone(f1, f2, cis.maxFps);
    DivAntitone(1000000, EffectiveFps(f1, cis.maxFps), EffectiveFps(f2, cis.maxFps));
  }

  /** The u16 coarse-integration value computed from an exposure time in microseconds. */
  function CoarseIntegration(exposure: u32, cis: CisData): (coarse: u16)
    requires cis.lineLengthPck != 0
  {
    Trunc16(Quotient(Sub64(Trunc64(Product(exposure, PclkKhz(cis))) / 1000, cis.minFineIntegrationTime), cis.lineLengthPck))
  }

  /**
   * Without wrap-around, the coarse integration time is the number of whole
   * lines that fit in the exposure's pixel clocks after the minimum fine
   * integration time.
   */
  lemma {:induction false} CoarseIntegrationWholeLines(exposure: u32, cis: CisData)
    requires 0 < cis.lineLengthPck
    requires exposure * PclkKhz(cis) < U64_LIMIT
    requires cis.minFineIntegrationTime <= exposure * PclkKhz(cis) / 1000
    requires (exposure * PclkKhz(cis) / 1000 - cis.minFineIntegrationTime) / cis.lineLengthPck < U16_LIMIT
    ensures
      var coarse, clocks := CoarseIntegration(exposure, cis), exposure * PclkKhz(cis) / 1000;
      && coarse * cis.lineLengthPck + cis.minFineIntegrationTime <= clocks
      && clocks < (coarse + 1) * cis.lineLengthPck + cis.minFineIntegrationTime
  {
    var clocks := exposure * PclkKhz(cis) / 1000;
    var rest := clocks - cis.minFineIntegrationTime;
    assert Trunc64(Product(exposure, PclkKhz(cis))) == exposure * PclkKhz(cis);
    DivNonneg(exposure * PclkKhz(cis), 1000);
    assert Sub64(clocks, cis.minFineIntegrationTime) == rest;
    DivBounds(rest, cis.lineLengthPck);
    assert CoarseIntegration(exposure, cis) == rest / cis.lineLengthPck;
  }

  /**
   * The clamping of sensor_imx258_cis_set_exposure_time: first down to the
   * maximum, then up to the minimum (each bound stored into a u16).
   */
  function ClampCoarse(coarse: u16, cis: CisData): (c: u16)
    ensures cis.minCoarseIntegrationTime <= cis.maxCoarseIntegrationTime < U16_LIMIT ==>
      cis.minCoarseIntegrationTime <= c <= cis.maxCoarseIntegrationTime
    ensures cis.minCoarseIntegrationTime <= coarse <= cis.maxCoarseIntegrationTime ==> c == coarse
    ensures cis.maxCoarseIntegrationTime < cis.minCoarseIntegrationTime < U16_LIMIT ==>
      c == cis.minCoarseIntegrationTime
  {
    var c1 := if coarse > cis.maxCoarseIntegrationTime then Trunc16(cis.maxCoarseIntegrationTime) else coarse;
    if c1 < cis.minCoarseIntegrationTime then Trunc16(cis.minCoarseIntegrationTime) else c1
  }

  /** The outcome of set_exposure_time: return code and the long/short coarse values computed. */
  datatype ExposureResult = ExposureResult(ret: int, longCoarse: u16, shortCoarse: u16)

  /**
   * sensor_imx258_cis_set_exposure_time.  A zero long or short exposure is
   * rejected; otherwise both coarse values are computed and clamped, and only
   * the short one is written (register 0x0202); `writeRet` is that write's result.
   */
  function SetExposureTime(longVal: u32, shortVal: u32, cis: CisData, writeRet: int): (r: ExposureResult)
    requires cis.lineLengthPck != 0
    ensures r.ret == -EINVAL <==> (longVal <= 0 || shortVal <= 0 || writeRet == -EINVAL)
    ensures longVal > 0 && shortVal > 0 ==>
      && r.ret == writeRet
      && r.longCoarse == ClampCoarse(CoarseIntegration(longVal, cis), cis)
      && r.shortCoarse == ClampCoarse(CoarseIntegration(shortVal, cis), cis)
    ensures longVal > 0 && shortVal > 0
            && cis.minCoarseIntegrationTime <= cis.maxCoarseIntegrationTime < U16_LIMIT ==>
      && cis.minCoarseIntegrationTime <= r.longCoarse <= cis.maxCoarseIntegrationTime
      && cis.minCoarseIntegrationTime <= r.shortCoarse <= cis.maxCoarseIntegrationTime
  {
    if longVal <= 0 || shortVal <= 0 then ExposureResult(-EINVAL, 0, 0)
    else
      var longCoarse := ClampCoarse(CoarseIntegration(longVal, cis), cis);
      var shortCoarse := ClampCoarse(CoarseIntegration(shortVal, cis), cis);
      ExposureResult(writeRet, longCoarse, shortCoarse)
  }

  /**
   * Without wrap-around, and when the line count already lies within the
   * coarse bounds, the short exposure set_exposure_time writes is exactly
   * the whole lines that fit in the requested exposure.
   */
  lemma {:induction false} SetExposureTimeWritesWholeLines(longVal: u32, shortVal: u32, cis: CisData, writeRet: int)
    requires 0 < cis.lineLengthPck && 0 < longVal && 0 < shortVal
    requires shortVal * PclkKhz(cis) < U64_LIMIT
    requires cis.minFineIntegrationTime <= shortVal * PclkKhz(cis) / 1000
    requires (shortVal * PclkKhz(cis) / 1000 - cis.minFineIntegrationTime) / cis.lineLengthPck < U16_LIMIT
    requires cis.minCoarseIntegrationTime <= CoarseIntegration(shortVal, cis) <= cis.maxCoarseIntegrationTime
    ensures
      var coarse, clocks := SetExposureTime(longVal, shortVal, cis, writeRet).shortCoarse, shortVal * PclkKhz(cis) / 1000;
      && coarse * cis.lineLengthPck + cis.minFineIntegrationTime <= clocks
      && clocks < (coarse + 1) * cis.lineLengthPck + cis.minFineIntegrationTime
  {
    CoarseIntegrationWholeLines(shortVal, cis);
  }
}
