/** The EDID 1.4 base block of the invented display: clamp, timing, bytes. */
module Edid {
  import opened Common

  const HBLANK: nat := 160
  const HBLANK_RB2: nat := 80
  const VBLANK: nat := 46
  const MAX_ACTIVE: nat := 4095
  const EDID_LEN: nat := 128

  // ------------------------------------------------------------------ the clamp

  datatype Mode = Mode(w: nat, h: nat, hz: nat, hblank: nat)

  function Min(a: nat, b: nat): nat { if a < b then a else b }

  function Max(a: nat, b: nat): nat { if a < b then b else a }

  /** The highest rate whose clock and line rate fit their fields, for one horizontal blanking. */
  function HzCeiling(w: nat, h: nat, hblank: nat): nat
    requires w + hblank > 0
  {
    CellsPositive(w + hblank, h + VBLANK);
    var byClock := 65535 * 10000 / ((w + hblank) * (h + VBLANK));
    var byHfreq := 255 * 1000 / (h + VBLANK);
    Max(1, Min(Min(byClock, byHfreq), 254))
  }

  lemma CellsPositive(a: nat, b: nat)
    requires a > 0 && b > 0
    ensures a * b > 0
  {
  }

  function ClampW(w: nat): nat { Min(Max(w, 1), MAX_ACTIVE - HBLANK) }

  function ClampH(h: nat): nat { Min(Max(h, 1), MAX_ACTIVE - VBLANK) }

  function Effective(w: nat, h: nat, hz: nat): Mode {
    var cw, ch, chz := ClampW(w), ClampH(h), Max(hz, 1);
    var wide, narrow := HzCeiling(cw, ch, HBLANK), HzCeiling(cw, ch, HBLANK_RB2);
    if chz > wide && narrow > wide then Mode(cw, ch, Min(chz, narrow), HBLANK_RB2)
    else Mode(cw, ch, Min(chz, wide), HBLANK)
  }

  /** `nvrm_edid_effective`. */
  method EffectiveMode(w0: nat, h0: nat, hz0: nat) returns (m: Mode)
    ensures m == Effective(w0, h0, hz0)
  {
    var w, h, hz, hblank := w0, h0, hz0, HBLANK;
    if w < 1 { w := 1; }
    if h < 1 { h := 1; }
    if w > MAX_ACTIVE - HBLANK { w := MAX_ACTIVE - HBLANK; }
    if h > MAX_ACTIVE - VBLANK { h := MAX_ACTIVE - VBLANK; }
    if hz < 1 { hz := 1; }
    var cap := HzCeiling(w, h, hblank);
    if hz > cap {
      var cap2 := HzCeiling(w, h, HBLANK_RB2);
      if cap2 > cap {
        hblank := HBLANK_RB2;
        cap := cap2;
      }
    }
    if hz > cap { hz := cap; }
    m := Mode(w, h, hz, hblank);
  }

  /** The caller may clamp, and the builder clamps again: the second time changes nothing. */
  lemma ClampIsIdempotent(w: nat, h: nat, hz: nat)
    ensures var m := Effective(w, h, hz); Effective(m.w, m.h, m.hz) == m
  {
    var m := Effective(w, h, hz);
    assert ClampW(m.w) == m.w && ClampH(m.h) == m.h;
  }

  /** What the clamp guarantees. */
  predicate Fits(m: Mode) {
    && 1 <= m.w <= MAX_ACTIVE - HBLANK && 1 <= m.h <= MAX_ACTIVE - VBLANK && 1 <= m.hz <= 254
    && (m.hblank == HBLANK || m.hblank == HBLANK_RB2)
    && (m.w + m.hblank) * (m.h + VBLANK) * m.hz <= 65535 * 10000
    && (m.h + VBLANK) * m.hz <= 255 * 1000
  }

  lemma CellsBounded(a: nat, b: nat, x: nat, y: nat)
    requires 0 < a <= x && 0 < b <= y
    ensures 0 < a * b <= x * y
  {
    assert a * b <= x * b <= x * y;
  }

  lemma DivTimes(n: nat, d: nat, q: nat)
    requires d > 0 && q <= n / d
    ensures d * q <= n
  {
    assert d * q <= d * (n / d);
  }

  lemma DivAtLeastOne(n: nat, d: nat)
    requires 0 < d <= n
    ensures n / d >= 1
  {
  }

  lemma CeilingFits(w: nat, h: nat, hblank: nat, hz: nat)
    requires 1 <= w <= MAX_ACTIVE - HBLANK && 1 <= h <= MAX_ACTIVE - VBLANK && hblank <= HBLANK
    requires hz <= HzCeiling(w, h, hblank)
    ensures (w + hblank) * (h + VBLANK) * hz <= 65535 * 10000 && (h + VBLANK) * hz <= 255 * 1000 && hz <= 254
  {
    var cells := (w + hblank) * (h + VBLANK);
    CellsBounded(w + hblank, h + VBLANK, MAX_ACTIVE, MAX_ACTIVE);
    DivAtLeastOne(65535 * 10000, cells);
    DivAtLeastOne(255 * 1000, h + VBLANK);
    DivTimes(65535 * 10000, cells, hz);
    DivTimes(255 * 1000, h + VBLANK, hz);
  }

  /** Every field of the block is wide enough for the clamped mode. */
  lemma EffectiveFits(w: nat, h: nat, hz: nat)
    ensures Fits(Effective(w, h, hz))
  {
    var m := Effective(w, h, hz);
    CeilingFits(m.w, m.h, m.hblank, m.hz);
  }

  lemma TimesDiv(n: nat, d: nat, q: nat)
    requires d > 0 && d * q <= n
    ensures q <= n / d
  {
    DivMod(n, d);
    if q > n / d {
      MulMono(n / d + 1, q, d);
      assert false;
    }
  }

  lemma FitsCeiling(m: Mode)
    requires Fits(m)
    ensures m.hz <= HzCeiling(m.w, m.h, m.hblank)
  {
    var cells := (m.w + m.hblank) * (m.h + VBLANK);
    CellsPositive(m.w + m.hblank, m.h + VBLANK);
    TimesDiv(65535 * 10000, cells, m.hz);
    TimesDiv(255 * 1000, m.h + VBLANK, m.hz);
  }

  /**
   * The clamp changes no more than it must: a request that fits is kept as it
   * is; otherwise size is kept where it is possible at all, the rate is the
   * highest up to the one asked for that fits with either blanking, and the
   * narrow blanking is used only where the wide one would not do.
   */
  lemma ClampIsTight(w: nat, h: nat, hz: nat, other: Mode)
    ensures var m := Effective(w, h, hz);
      && (Fits(Mode(w, h, hz, HBLANK)) ==> m == Mode(w, h, hz, HBLANK))
      && (1 <= w <= MAX_ACTIVE - HBLANK ==> m.w == w) && (1 <= h <= MAX_ACTIVE - VBLANK ==> m.h == h)
      && (Fits(other) && other.w == m.w && other.h == m.h && other.hz <= Max(hz, 1) ==> other.hz <= m.hz <= Max(hz, 1))
      && (m.hblank == HBLANK_RB2 ==> !Fits(m.(hblank := HBLANK)))
  {
    var m := Effective(w, h, hz);
    if Fits(Mode(w, h, hz, HBLANK)) { FitsCeiling(Mode(w, h, hz, HBLANK)); }
    if Fits(other) { FitsCeiling(other); }
    if Fits(m.(hblank := HBLANK)) { FitsCeiling(m.(hblank := HBLANK)); }
    NarrowIsFaster(m.w, m.h);
  }

  lemma NarrowIsFaster(w: nat, h: nat)
    ensures HzCeiling(w, h, HBLANK) <= HzCeiling(w, h, HBLANK_RB2)
  {
    var wide, narrow := (w + HBLANK) * (h + VBLANK), (w + HBLANK_RB2) * (h + VBLANK);
    CellsBounded(w + HBLANK_RB2, h + VBLANK, w + HBLANK, h + VBLANK);
    var q := 65535 * 10000 / wide;
    DivTimes(65535 * 10000, wide, q);
    MulMono(narrow, wide, q);
    TimesDiv(65535 * 10000, narrow, q);
  }

  // ------------------------------------------------------------------ the timing

  datatype Timing = Timing(
    hactive: nat, hblank: nat, hsyncOff: nat, hsyncW: nat,
    vactive: nat, vblank: nat, vsyncOff: nat, vsyncW: nat, pclk: nat)

  /** `nvrm_vtiming_for`: the pixel clock counts in units of 10 kHz. */
  function TimingFor(m: Mode): Timing {
    Timing(m.w, m.hblank, 48, 32, m.h, VBLANK, 3, 5, Clock(m.w + m.hblank, m.h + VBLANK, m.hz))
  }

  function Clock(htotal: nat, vtotal: nat, hz: nat): nat {
    NonNegative(htotal, vtotal, hz);
    htotal * vtotal * hz / 10000
  }

  lemma NonNegative(a: nat, b: nat, c: nat)
    ensures a * b * c >= 0
  {
    assert a * b >= 0;
  }

  /** The widths of the descriptor's fields. */
  predicate Encodable(t: Timing) {
    && t.pclk < 65536 && t.hactive < 4096 && t.hblank < 4096 && t.vactive < 4096 && t.vblank < 4096
    && t.hsyncOff < 1024 && t.hsyncW < 1024 && t.vsyncOff < 64 && t.vsyncW < 64
  }

  // Bytes that several fields share.

  function HighNibbles(a: nat, b: nat): byte { (a / 256 * 16 + b / 256 % 16) % 256 }

  function LowNibbles(a: nat, b: nat): byte { a % 16 * 16 + b % 16 }

  function HighBits(ho: nat, hw: nat, vo: nat, vw: nat): byte {
    ho / 256 % 4 * 64 + hw / 256 % 4 * 16 + vo / 16 % 4 * 4 + vw / 16 % 4
  }

  /** Section 3.10.2 of EDID 1.4. */
  function Dtd(t: Timing): (d: seq<byte>)
    ensures |d| == 18
  {
    [t.pclk % 256, t.pclk / 256 % 256,
     t.hactive % 256, t.hblank % 256, HighNibbles(t.hactive, t.hblank),
     t.vactive % 256, t.vblank % 256, HighNibbles(t.vactive, t.vblank),
     t.hsyncOff % 256, t.hsyncW % 256, LowNibbles(t.vsyncOff, t.vsyncW),
     HighBits(t.hsyncOff, t.hsyncW, t.vsyncOff, t.vsyncW),
     531 % 256, 299 % 256, 531 / 256 * 16 + 299 / 256, 0, 0, 0x1e]
  }

  function At(d: seq<byte>, i: nat): int
    requires i < |d|
  {
    d[i]
  }

  /** What a reader of the descriptor sees. */
  function DecodeDtd(d: seq<byte>): Timing
    requires |d| == 18
  {
    Timing(Joined(At(d, 2), At(d, 4) / 16, 256), Joined(At(d, 3), At(d, 4) % 16, 256),
           Joined(At(d, 8), At(d, 11) / 64, 256), Joined(At(d, 9), At(d, 11) / 16 % 4, 256),
           Joined(At(d, 5), At(d, 7) / 16, 256), Joined(At(d, 6), At(d, 7) % 16, 256),
           Joined(At(d, 10) / 16, At(d, 11) / 4 % 4, 16), Joined(At(d, 10) % 16, At(d, 11) % 4, 16),
           Joined(At(d, 0), At(d, 1), 256))
  }

  /** A number from its low part and the rest. */
  function Joined(low: nat, high: nat, base: nat): (n: nat) {
    LowIs(low, high, base);
    low + base * high
  }

  lemma LowIs(low: nat, high: nat, base: nat)
    ensures low + base * high >= 0
  {
  }

  lemma JoinedBack(n: nat, base: nat)
    requires base > 0
    ensures Joined(n % base, n / base, base) == n
  {
  }

  lemma HighNibblesParts(a: nat, b: nat)
    requires a < 4096 && b < 4096
    ensures HighNibbles(a, b) / 16 == a / 256 && HighNibbles(a, b) % 16 == b / 256
  {
    var hi, lo := a / 256, b / 256;
    assert hi < 16 && lo < 16;
    assert (hi * 16 + lo) / 16 == hi && (hi * 16 + lo) % 16 == lo;
  }

  lemma LowNibblesParts(a: nat, b: nat)
    ensures LowNibbles(a, b) / 16 == a % 16 && LowNibbles(a, b) % 16 == b % 16
  {
    var hi, lo := a % 16, b % 16;
    assert (hi * 16 + lo) / 16 == hi && (hi * 16 + lo) % 16 == lo;
  }

  lemma Quads(a: nat, b: nat, c: nat, d: nat)
    requires a < 4 && b < 4 && c < 4 && d < 4
    ensures var x := a * 64 + b * 16 + c * 4 + d; x / 64 == a && x / 16 % 4 == b && x / 4 % 4 == c && x % 4 == d
  {
  }

  lemma SmallMod(n: nat)
    requires n < 4
    ensures n % 4 == n
  {
  }

  lemma HighBitsParts(ho: nat, hw: nat, vo: nat, vw: nat)
    requires ho < 1024 && hw < 1024 && vo < 64 && vw < 64
    ensures var x := HighBits(ho, hw, vo, vw);
      x / 64 == ho / 256 && x / 16 % 4 == hw / 256 && x / 4 % 4 == vo / 16 && x % 4 == vw / 16
  {
    var a, b, c, d := ho / 256, hw / 256, vo / 16, vw / 16;
    SmallMod(a);
    SmallMod(b);
    SmallMod(c);
    SmallMod(d);
    Quads(a, b, c, d);
  }

  /** Parts that read as these words join to the timing. */
  lemma JoinParts(t: Timing, b4: nat, b7: nat, b10: nat, b11: nat)
    requires b4 / 16 == t.hactive / 256 && b4 % 16 == t.hblank / 256
    requires b7 / 16 == t.vactive / 256 && b7 % 16 == t.vblank / 256
    requires b10 / 16 == t.vsyncOff % 16 && b10 % 16 == t.vsyncW % 16
    requires b11 / 64 == t.hsyncOff / 256 && b11 / 16 % 4 == t.hsyncW / 256 && b11 / 4 % 4 == t.vsyncOff / 16 && b11 % 4 == t.vsyncW / 16
    ensures Timing(Joined(t.hactive % 256, b4 / 16, 256), Joined(t.hblank % 256, b4 % 16, 256),
                   Joined(t.hsyncOff % 256, b11 / 64, 256), Joined(t.hsyncW % 256, b11 / 16 % 4, 256),
                   Joined(t.vactive % 256, b7 / 16, 256), Joined(t.vblank % 256, b7 % 16, 256),
                   Joined(b10 / 16, b11 / 4 % 4, 16), Joined(b10 % 16, b11 % 4, 16),
                   Joined(t.pclk % 256, t.pclk / 256, 256)) == t
  {
    JoinedBack(t.hactive, 256);
    JoinedBack(t.hblank, 256);
    JoinedBack(t.hsyncOff, 256);
    JoinedBack(t.hsyncW, 256);
    JoinedBack(t.vactive, 256);
    JoinedBack(t.vblank, 256);
    JoinedBack(t.vsyncOff, 16);
    JoinedBack(t.vsyncW, 16);
    JoinedBack(t.pclk, 256);
  }

  lemma DtdRoundTrip(t: Timing)
    requires Encodable(t)
    ensures DecodeDtd(Dtd(t)) == t
  {
    HighNibblesParts(t.hactive, t.hblank);
    HighNibblesParts(t.vactive, t.vblank);
    LowNibblesParts(t.vsyncOff, t.vsyncW);
    HighBitsParts(t.hsyncOff, t.hsyncW, t.vsyncOff, t.vsyncW);
    JoinParts(t, HighNibbles(t.hactive, t.hblank), HighNibbles(t.vactive, t.vblank),
              LowNibbles(t.vsyncOff, t.vsyncW), HighBits(t.hsyncOff, t.hsyncW, t.vsyncOff, t.vsyncW));
    assert t.pclk / 256 % 256 == t.pclk / 256;
  }

  lemma FitsEncodable(m: Mode)
    requires Fits(m)
    ensures Encodable(TimingFor(m))
  {
    ClockBound(m.w + m.hblank, m.h + VBLANK, m.hz);
  }

  lemma ClockBound(htotal: nat, vtotal: nat, hz: nat)
    requires htotal * vtotal * hz <= 65535 * 10000
    ensures Clock(htotal, vtotal, hz) <= 65535
  {
    NonNegative(htotal, vtotal, hz);
    ClockSmall(htotal * vtotal * hz);
  }

  lemma ClockSmall(n: nat)
    requires n <= 65535 * 10000
    ensures n / 10000 <= 65535
  {
  }

  /** For any size and rate the descriptor reads back as the timing of the clamped mode. */
  lemma DescriptorSaysTheMode(w: nat, h: nat, hz: nat)
    ensures DecodeDtd(Dtd(TimingFor(Effective(w, h, hz)))) == TimingFor(Effective(w, h, hz))
  {
    EffectiveFits(w, h, hz);
    FitsEncodable(Effective(w, h, hz));
    DtdRoundTrip(TimingFor(Effective(w, h, hz)));
  }

  // -------------------------------------------------------------- the range limits

  function LineKhz(t: Timing): nat
    requires t.hactive + t.hblank > 0
  {
    t.pclk * 10 / (t.hactive + t.hblank)
  }

  function VMin(hz: nat): nat { if hz > 50 then 50 else if hz > 1 then hz - 1 else 1 }

  function VMax(hz: nat): nat { if hz < 75 then 75 else hz + 1 }

  function HMin(khz: nat): nat { if khz < 30 then (if khz > 1 then khz - 1 else 1) else 30 }

  function HMax(khz: nat): nat { if khz > 159 then khz + 1 else 160 }

  /** Descriptor 2. */
  function Limits(t: Timing, hz: nat): (d: seq<byte>)
    requires t.hactive + t.hblank > 0
    ensures |d| == 18
  {
    [0, 0, 0, 0xfd, 0, Min(255, VMin(hz)), Min(255, VMax(hz)), HMin(LineKhz(t)), Min(255, HMax(LineKhz(t))),
     Min(255, t.pclk / 1000 + 1), 1, 0x0a, 0x20, 0x20, 0x20, 0x20, 0x20, 0x20]
  }

  /** The limits contain the rate and the pixel clock: bytes 5 and 6 in Hz, byte 9 in 10 MHz. */
  lemma RateAndClockContained(m: Mode)
    requires Fits(m)
    ensures var d := Limits(TimingFor(m), m.hz); d[5] <= m.hz <= d[6] && TimingFor(m).pclk <= 1000 * At(d, 9)
  {
    FitsEncodable(m);
  }

  /** The line rate of the encoded clock never exceeds 255 kHz. */
  lemma LineRateBounded(m: Mode)
    requires Fits(m)
    ensures TimingFor(m).pclk * 10 <= 255 * (m.w + m.hblank)
  {
    var htotal, lines := m.w + m.hblank, (m.h + VBLANK) * m.hz;
    var pclk := TimingFor(m).pclk;
    assert htotal * (m.h + VBLANK) * m.hz == htotal * lines;
    MulMono(lines, 255 * 1000, htotal);
    DivMod(htotal * lines, 10000);
    assert pclk * 10000 <= 255 * 1000 * htotal;
  }

  /** A floor of at least one bounds from below exactly when the value is at least one. */
  lemma HMinBelow(n: nat, d: nat)
    requires d > 0
    ensures HMin(n / d) * d <= n <==> n >= d
  {
    var k := n / d;
    DivMod(n, d);
    if k >= 1 {
      MulMono(HMin(k), k, d);
      MulMono(1, k, d);
    }
  }

  lemma HMaxAbove(n: nat, d: nat)
    requires d > 0 && n <= 255 * d
    ensures n <= Min(255, HMax(n / d)) * d
  {
    var k := n / d;
    DivMod(n, d);
    if HMax(k) < 255 { MulMono(k + 1, HMax(k), d); }
  }

  /** They contain the line rate of the descriptor's timing exactly when that is at least 1 kHz (bytes 7 and 8 in kHz). */
  lemma LineRateContainedIff(m: Mode)
    requires Fits(m)
    ensures var t, d := TimingFor(m), Limits(TimingFor(m), m.hz);
      (At(d, 7) * (t.hactive + t.hblank) <= t.pclk * 10 <= At(d, 8) * (t.hactive + t.hblank)) <==> t.pclk * 10 >= t.hactive + t.hblank
  {
    var t := TimingFor(m);
    LineRateBounded(m);
    HMinBelow(t.pclk * 10, t.hactive + t.hblank);
    HMaxAbove(t.pclk * 10, t.hactive + t.hblank);
  }

  /** The smallest mode is below 1 kHz, and its own limits exclude it. */
  lemma SmallestModeIsExcluded()
    ensures var m := Effective(1, 1, 1); var t := TimingFor(m);
      m == Mode(1, 1, 1, HBLANK) && t.pclk == 0 && At(Limits(t, m.hz), 7) == 1 && At(Limits(t, m.hz), 7) * (t.hactive + t.hblank) > t.pclk * 10
  {
    var m := Effective(1, 1, 1);
    assert HzCeiling(1, 1, HBLANK) == 254;
  }

  // ------------------------------------------------------------------ the block

  /** Header, identity, features, colours, established and unused standard timings. */
  function Head(): (s: seq<byte>)
    ensures |s| == 54
  {
    [0x00, 0xff, 0xff, 0xff, 0xff, 0xff, 0xff, 0x00, 0x30, 0xa1, 0x01, 0x00, 0, 0, 0, 0, 1, 36, 1, 4, 0xa5, 53, 30, 120, 0x06,
     0xee, 0x91, 0xa3, 0x54, 0x4c, 0x99, 0x26, 0x0f, 0x50, 0x54, 0x20, 0x00, 0x00,
     1, 1, 1, 1, 1, 1, 1, 1, 1, 1, 1, 1, 1, 1, 1, 1]
  }

  /** Descriptor 3: "Leandro vDisp", thirteen characters. */
  function Name(): (s: seq<byte>)
    ensures |s| == 18
  {
    [0, 0, 0, 0xfc, 0, 0x4c, 0x65, 0x61, 0x6e, 0x64, 0x72, 0x6f, 0x20, 0x76, 0x44, 0x69, 0x73, 0x70]
  }

  /** Descriptor 4 and the extension count. */
  function Tail(): (s: seq<byte>)
    ensures |s| == 19
  {
    [0, 0, 0, 0x10, 0, 0, 0, 0, 0, 0, 0, 0, 0, 0, 0, 0, 0, 0, 0]
  }

  function Payload(m: Mode): (s: seq<byte>)
    requires m.w + m.hblank > 0
    ensures |s| == EDID_LEN - 1
  {
    Head() + Dtd(TimingFor(m)) + Limits(TimingFor(m), m.hz) + Name() + Tail()
  }

  function Sum(s: seq<byte>): nat {
    if s == [] then 0 else Sum(s[..|s| - 1]) + s[|s| - 1]
  }

  function CheckFrom(sum: nat): byte { (256 - sum % 256) % 256 }

  function CheckByte(s: seq<byte>): byte { CheckFrom(Sum(s)) }

  function Block(m: Mode): (s: seq<byte>)
    requires m.w + m.hblank > 0
    ensures |s| == EDID_LEN
  {
    Payload(m) + [CheckByte(Payload(m))]
  }

  /** The bytes add up to zero modulo 256. */
  lemma BlockSumsToZero(m: Mode)
    requires m.w + m.hblank > 0
    ensures Sum(Block(m)) % 256 == 0
  {
    assert Block(m)[..EDID_LEN - 1] == Payload(m);
    CheckCancels(Sum(Payload(m)));
  }

  lemma CheckCancels(n: nat)
    ensures (n + (256 - n % 256) % 256) % 256 == 0
  {
  }

  /** Where the descriptors sit. */
  lemma BlockHolds(m: Mode)
    requires m.w + m.hblank > 0
    ensures Block(m)[54..72] == Dtd(TimingFor(m)) && Block(m)[72..90] == Limits(TimingFor(m), m.hz)
    ensures Block(m)[..54] == Head()
  {
    Segments(Head(), Dtd(TimingFor(m)), Limits(TimingFor(m), m.hz), Name() + Tail() + [CheckByte(Payload(m))], Block(m));
  }

  lemma Segments(a: seq<byte>, b: seq<byte>, c: seq<byte>, d: seq<byte>, s: seq<byte>)
    requires s == a + b + c + d
    ensures s[..|a|] == a && s[|a|..|a| + |b|] == b && s[|a| + |b|..|a| + |b| + |c|] == c
  {
  }

  method Put(e: array<byte>, off: nat, s: seq<byte>)
    requires off + |s| <= e.Length
    modifies e
    ensures e[..off + |s|] == old(e[..off]) + s
  {
    for i := 0 to |s|
      invariant e[..off + i] == old(e[..off]) + s[..i]
    {
      e[off + i] := s[i];
    }
  }

  /** Segment after segment, from the front. */
  method Assemble(e: array<byte>, head: seq<byte>, dtd: seq<byte>, limits: seq<byte>, name: seq<byte>, tail: seq<byte>)
    requires |head| + |dtd| + |limits| + |name| + |tail| <= e.Length
    modifies e
    ensures e[..|head| + |dtd| + |limits| + |name| + |tail|] == head + dtd + limits + name + tail
  {
    Put(e, 0, head);
    Put(e, |head|, dtd);
    Put(e, |head| + |dtd|, limits);
    Put(e, |head| + |dtd| + |limits|, name);
    Put(e, |head| + |dtd| + |limits| + |name|, tail);
  }

  /** The last byte, from a running sum of the others. */
  method Seal(e: array<byte>)
    requires e.Length == EDID_LEN
    modifies e
    ensures e[..] == old(e[..EDID_LEN - 1]) + [CheckByte(old(e[..EDID_LEN - 1]))]
  {
    var sum: nat := 0;
    for i := 0 to EDID_LEN - 1
      invariant sum == Sum(e[..i]) && e[..] == old(e[..])
    {
      assert e[..i + 1][..i] == e[..i];
      sum := sum + e[i] as int;
    }
    e[EDID_LEN - 1] := CheckFrom(sum);
    assert e[..] == e[..EDID_LEN - 1] + [e[EDID_LEN - 1]];
  }

  /** `nvrm_build_edid`. */
  method BuildEdid(e: array<byte>, w: nat, h: nat, hz: nat)
    requires e.Length == EDID_LEN
    modifies e
    ensures e[..] == Block(Effective(w, h, hz))
  {
    var m := EffectiveMode(w, h, hz);
    var t := TimingFor(m);
    Assemble(e, Head(), Dtd(t), Limits(t, m.hz), Name(), Tail());
    Seal(e);
  }
}
