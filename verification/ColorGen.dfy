/**
  The colour generator of colorgen.cpp. Unsigned arithmetic wraps at 2^32; floating point
  is taken as exact real arithmetic.
 */
module ColorGen {

  const MOD := 0x1_0000_0000

  /** The last hue at which no colour is black, in the source's scale of 255 to the circle. */
  const HUE_LIMIT := 488

  type uint = x: int | 0 <= x < MOD

  function Add(a: uint, b: uint): uint {
    (a + b) % MOD
  }

  // ----- conversion -----------------------------------------------------------

  datatype Rgb = Rgb(r: int, g: int, b: int)

  predicate IsByte(x: int) {
    0 <= x <= 255
  }

  /** make_rgb on channels that are bytes: the shifted channels do not overlap. */
  function MakeRgb(realRgb: bool, c: Rgb): (v: uint)
    requires IsByte(c.r) && IsByte(c.g) && IsByte(c.b)
    ensures v == 0 <==> c == Rgb(0, 0, 0)
    ensures v / 0x10000 == (if realRgb then c.r else c.b) && v / 0x100 % 0x100 == c.g
    ensures v % 0x100 == if realRgb then c.b else c.r
  {
    ShiftedBytes(c.r, c.g, c.b);
    ShiftedBytes(c.b, c.g, c.r);
    if realRgb then c.r * 0x10000 + c.g * 0x100 + c.b else c.b * 0x10000 + c.g * 0x100 + c.r
  }

  lemma ShiftedBytes(x: int, y: int, z: int)
    requires IsByte(x) && IsByte(y) && IsByte(z)
    ensures var v := x * 0x10000 + y * 0x100 + z;
            v / 0x10000 == x && v / 0x100 % 0x100 == y && v % 0x100 == z
  {
    var v := x * 0x10000 + y * 0x100 + z;
    assert v / 0x100 == x * 0x100 + y;
    assert v % 0x100 == z;
  }

  /** The channel level at hue rh between the lower level m1 and the upper level m2. */
  function Level(m1: real, m2: real, rh: real): real {
    var h := if rh > 360.0 then rh - 360.0 else if rh < 0.0 then rh + 360.0 else rh;
    if h < 60.0 then m1 + (m2 - m1) * h / 60.0
    else if h < 180.0 then m2
    else if h < 240.0 then m1 + (m2 - m1) * (240.0 - h) / 60.0
    else m1
  }

  /** to_rgb: the level scaled to a byte and truncated. */
  function ToRgb(m1: real, m2: real, rh: real): int {
    (Level(m1, m2, rh) * 255.0).Floor
  }

  function Upper(s: real, l: real): real {
    if l <= 0.5 then l + l * s else l + s - l * s
  }

  function Channels(H: nat, S: nat, L: nat): Rgb {
    if S == 0 then Rgb(L % 256, L % 256, L % 256) else
      var h, s, l := H as real * 360.0 / 255.0, S as real / 255.0, L as real / 255.0;
      var m2 := Upper(s, l);
      var m1 := 2.0 * l - m2;
      Rgb(ToRgb(m1, m2, h + 120.0), ToRgb(m1, m2, h), ToRgb(m1, m2, h - 120.0))
  }

  function Max(a: int, b: int): int {
    if a < b then b else a
  }

  function Min(a: int, b: int): int {
    if a < b then a else b
  }

  function Brightest(c: Rgb): int {
    Max(c.r, Max(c.g, c.b))
  }

  function Darkest(c: Rgb): int {
    Min(c.r, Min(c.g, c.b))
  }

  lemma MulBounds(x: real, y: real) returns (p: real)
    requires 0.0 <= x <= 1.0 && 0.0 <= y <= 1.0
    ensures p == x * y && 0.0 <= p && p <= x && p <= y
  {
    p := x * y;
    NonNegative(x, y);
    NonNegative(x, 1.0 - y);
    NonNegative(1.0 - x, y);
    assert x * (1.0 - y) == x - p && (1.0 - x) * y == y - p;
  }

  lemma NonNegative(a: real, b: real)
    requires 0.0 <= a && 0.0 <= b
    ensures 0.0 <= a * b
  {
  }

  /** The two levels stay in [0, 1], and the upper one is not below the luminosity. */
  lemma LevelsInRange(s: real, l: real)
    requires 0.0 <= s <= 1.0 && 0.0 <= l <= 1.0
    ensures l <= Upper(s, l) <= 1.0 && 0.0 <= 2.0 * l - Upper(s, l) <= l
  {
    var p := MulBounds(l, s);
    var q := MulBounds(1.0 - l, s);
    assert q == s - p;
    assert Upper(s, l) == if l <= 0.5 then l + p else l + q;
  }

  /** A level lies between the lower and the upper one. */
  lemma LevelBetween(m1: real, m2: real, rh: real)
    requires m1 <= m2 && -360.0 <= rh
    ensures m1 <= Level(m1, m2, rh) <= m2
  {
    var h := if rh > 360.0 then rh - 360.0 else if rh < 0.0 then rh + 360.0 else rh;
    if h < 60.0 {
      MulBounds1(m2 - m1, h / 60.0);
    } else if 180.0 <= h < 240.0 {
      MulBounds1(m2 - m1, (240.0 - h) / 60.0);
    }
  }

  lemma MulBounds1(d: real, x: real)
    requires 0.0 <= d && 0.0 <= x <= 1.0
    ensures 0.0 <= d * x <= d
  {
  }

  /**
    Of three hues 120 degrees apart one is at the upper and one at the lower level, as long
    as taking off 360 degrees once is enough for the upper one.
   */
  lemma ThreeHues(m1: real, m2: real, h: real)
    requires 0.0 <= h <= 660.0
    ensures Level(m1, m2, h + 120.0) == m2 || Level(m1, m2, h) == m2 || Level(m1, m2, h - 120.0) == m2
    ensures Level(m1, m2, h + 120.0) == m1 || Level(m1, m2, h) == m1 || Level(m1, m2, h - 120.0) == m1
  {
  }

  /** A little beyond that, one hue is still in the upper half. */
  lemma UpperHalf(m1: real, m2: real, h: real)
    requires m1 <= m2 && 660.0 <= h <= 690.0
    ensures Level(m1, m2, h - 120.0) >= (m1 + m2) / 2.0
  {
    var x := (240.0 - (h - 120.0 - 360.0)) / 60.0;
    assert 0.5 <= x <= 1.0;
    MulBounds1(m2 - m1, x - 0.5);
    assert (m2 - m1) * x == (m2 - m1) * (x - 0.5) + (m2 - m1) * 0.5;
  }

  lemma FloorSum(x: real, n: int)
    ensures x.Floor + (n as real - x).Floor == n || x.Floor + (n as real - x).Floor == n - 1
  {
  }

  lemma FloorMonotone(x: real, y: real)
    requires x <= y
    ensures x.Floor <= y.Floor
  {
  }

  /**
    The brightest and the darkest channel add up to twice the luminosity, or to one less
    when truncation takes its share; so a colour of luminosity above 0 is never black.
    Hues above 255 are still understood up to 660 degrees.
   */
  lemma LuminosityKept(H: nat, S: nat, L: nat)
    requires H <= 467 && S <= 255 && L <= 255
    ensures var c := Channels(H, S, L);
            && IsByte(c.r) && IsByte(c.g) && IsByte(c.b)
            && (Brightest(c) + Darkest(c) == 2 * L || Brightest(c) + Darkest(c) == 2 * L - 1)
            && Brightest(c) >= L
  {
    hide Level, Upper, ToRgb;
    if S > 0 {
      var h, s, l := H as real * 360.0 / 255.0, S as real / 255.0, L as real / 255.0;
      LevelsInRange(s, l);
      var m2 := Upper(s, l);
      var m1 := 2.0 * l - m2;
      ExtremeChannels(m1, m2, h);
      assert m1 * 255.0 == (2 * L) as real - m2 * 255.0;
      FloorSum(m2 * 255.0, 2 * L);
      FloorMonotone(L as real, m2 * 255.0);
    }
  }

  /** At a third of the circle, or at none or two thirds, one channel stands out. */
  lemma PrimaryHues(S: nat, L: nat)
    requires S <= 255 && L <= 255
    ensures var c := Channels(0, S, L); c.r == Brightest(c) && c.g == c.b == Darkest(c)
    ensures var c := Channels(85, S, L); c.g == Brightest(c) && c.r == c.b == Darkest(c)
    ensures var c := Channels(170, S, L); c.b == Brightest(c) && c.r == c.g == Darkest(c)
  {
    if S > 0 {
      var s, l := S as real / 255.0, L as real / 255.0;
      LevelsInRange(s, l);
      var m2 := Upper(s, l);
      var m1 := 2.0 * l - m2;
      FloorMonotone(m1 * 255.0, m2 * 255.0);
      assert Level(m1, m2, 0.0) == m1 && Level(m1, m2, 120.0) == m2;
      assert Level(m1, m2, 240.0) == m1 && Level(m1, m2, -120.0) == m1 && Level(m1, m2, 360.0) == m1;
      hide Level, Upper;
      assert 85.0 * 360.0 / 255.0 == 120.0 && 170.0 * 360.0 / 255.0 == 240.0;
    }
  }

  /** How far the brightest channel is above the luminosity, and the darkest below it. */
  lemma SaturationSpread(H: nat, S: nat, L: nat)
    requires H <= 467 && S <= 255 && L <= 255
    ensures var c, spread := Channels(H, S, L), Min(L, 255 - L) * S;
            && Brightest(c) == L + spread / 255
            && Darkest(c) == L - (spread + 254) / 255
  {
    hide Level, Upper, ToRgb;
    if S > 0 {
      var h, s, l := H as real * 360.0 / 255.0, S as real / 255.0, L as real / 255.0;
      LevelsInRange(s, l);
      var m2 := Upper(s, l);
      var m1 := 2.0 * l - m2;
      ExtremeChannels(m1, m2, h);
      var spread := Min(L, 255 - L) * S;
      UpperSpread(S, L);
      assert m1 * 255.0 == (2 * L) as real - m2 * 255.0;
      FloorOfQuotient(L, spread);
      FloorSum(m2 * 255.0, 2 * L);
    }
  }

  lemma UpperSpread(S: nat, L: nat)
    requires S <= 255 && L <= 255
    ensures Upper(S as real / 255.0, L as real / 255.0) * 255.0 == L as real + (Min(L, 255 - L) * S) as real / 255.0
  {
    var s, l := S as real / 255.0, L as real / 255.0;
    assert (L * S) as real == L as real * S as real;
    assert ((255 - L) * S) as real == (255 - L) as real * S as real;
  }

  lemma FloorOfQuotient(n: int, k: nat)
    ensures (n as real + k as real / 255.0).Floor == n + k / 255
    ensures (n as real - k as real / 255.0).Floor == n - (k + 254) / 255
  {
  }

  /** Between them the channels rise and fall in straight lines, two thirds apart. */
  lemma SixSectors(L: nat)
    requires L <= 127
    ensures Channels(17, 255, L) == Rgb(2 * L, 4 * L / 5, 0)
    ensures Channels(68, 255, L) == Rgb(4 * L / 5, 2 * L, 0)
    ensures Channels(102, 255, L) == Rgb(0, 2 * L, 4 * L / 5)
    ensures Channels(153, 255, L) == Rgb(0, 4 * L / 5, 2 * L)
    ensures Channels(187, 255, L) == Rgb(4 * L / 5, 0, 2 * L)
    ensures Channels(238, 255, L) == Rgb(2 * L, 0, 4 * L / 5)
  {
    var l := L as real / 255.0;
    var m2 := Upper(1.0, l);
    assert m2 == 2.0 * l && m2 * 255.0 == (2 * L) as real;
    SectorLevels(m2);
    hide Level, Upper;
    assert (0.4 * m2) * 255.0 == (4 * L) as real / 5.0;
    assert ((4 * L) as real / 5.0).Floor == 4 * L / 5;
    assert ((2 * L) as real).Floor == 2 * L;
  }

  lemma SectorLevels(m2: real)
    ensures forall x :: x in {96.0, 144.0, 456.0} ==> Level(0.0, m2, x) == m2
    ensures forall x :: x in {24.0, 216.0, 384.0} ==> Level(0.0, m2, x) == 0.4 * m2
    ensures forall x :: x in {-96.0, -24.0, 264.0, 336.0} ==> Level(0.0, m2, x) == 0.0
  {
  }

  /** The first hue for which the sum is lost. */
  lemma SumLost()
    ensures var c := Channels(468, 255, 127);
            Brightest(c) + Darkest(c) < 2 * 127 - 1
  {
    var h := 468.0 * 360.0 / 255.0;
    assert 660.5 < h < 661.0;
    var m2 := Upper(1.0, 127.0 / 255.0);
    assert m2 * 255.0 == 254.0;
    var x := Level(0.0, m2, h - 120.0);
    assert x * 255.0 == 254.0 * ((240.0 - (h - 480.0)) / 60.0);
    assert (x * 255.0).Floor <= 252;
  }

  /** Up to 690 degrees the brightest channel still has the luminosity. */
  lemma NeverBlack(H: nat, S: nat, L: nat)
    requires H <= HUE_LIMIT && S <= 255 && L <= 255
    ensures var c := Channels(H, S, L);
            IsByte(c.r) && IsByte(c.g) && IsByte(c.b) && Brightest(c) >= L
  {
    if H <= 467 {
      LuminosityKept(H, S, L);
    } else if S > 0 {
      var h, s, l := H as real * 360.0 / 255.0, S as real / 255.0, L as real / 255.0;
      LevelsInRange(s, l);
      var m2 := Upper(s, l);
      var m1 := 2.0 * l - m2;
      UpperHalf(m1, m2, h);
      ChannelBetween(m1, m2, h + 120.0);
      ChannelBetween(m1, m2, h);
      ChannelBetween(m1, m2, h - 120.0);
      FloorMonotone(L as real, Level(m1, m2, h - 120.0) * 255.0);
    }
  }

  /** Whatever the hue, the channels are bytes. */
  lemma AlwaysBytes(H: nat, S: nat, L: nat)
    requires S <= 255 && L <= 255
    ensures var c := Channels(H, S, L);
            IsByte(c.r) && IsByte(c.g) && IsByte(c.b)
  {
    hide Level, Upper, ToRgb;
    if S > 0 {
      var h, s, l := H as real * 360.0 / 255.0, S as real / 255.0, L as real / 255.0;
      LevelsInRange(s, l);
      var m2 := Upper(s, l);
      var m1 := 2.0 * l - m2;
      ChannelBetween(m1, m2, h + 120.0);
      ChannelBetween(m1, m2, h);
      ChannelBetween(m1, m2, h - 120.0);
    }
  }

  /** Beyond 690 degrees the dimmest saturated colour is black. */
  lemma BlackBeyond(H: nat)
    requires H > HUE_LIMIT
    ensures Channels(H, 255, 1) == Rgb(0, 0, 0)
  {
    var h := H as real * 360.0 / 255.0;
    assert h > 690.0;
    var m2 := Upper(1.0, 1.0 / 255.0);
    assert m2 * 255.0 == 2.0;
    assert Level(0.0, m2, h + 120.0) == 0.0 && Level(0.0, m2, h) == 0.0;
    var x := Level(0.0, m2, h - 120.0);
    assert 0.0 <= x * 255.0 < 1.0 by {
      if h - 480.0 < 240.0 {
        assert x * 255.0 == 2.0 * ((240.0 - (h - 480.0)) / 60.0);
      }
    }
  }

  ghost predicate Visible(H: nat, S: nat, L: nat) {
    var c := Channels(H, S, L);
    IsByte(c.r) && IsByte(c.g) && IsByte(c.b) && c != Rgb(0, 0, 0)
  }

  /** The bound on hues is exact: up to it, and no further, every colour can be seen. */
  lemma HueLimitExact(H: nat)
    ensures H <= HUE_LIMIT <==> forall S: nat, L: nat :: S <= 255 && 1 <= L <= 255 ==> Visible(H, S, L)
  {
    hide Channels;
    if H <= HUE_LIMIT {
      forall S: nat, L: nat | S <= 255 && 1 <= L <= 255
        ensures Visible(H, S, L)
      {
        NeverBlack(H, S, L);
      }
    } else {
      BlackBeyond(H);
      assert !Visible(H, 255, 1);
    }
  }

  /** A luminosity that is no byte is cut down to one. */
  lemma LuminosityBeyond(H: nat)
    ensures Channels(H, 0, 256) == Rgb(0, 0, 0)
  {
  }

  lemma ExtremeChannels(m1: real, m2: real, h: real)
    requires 0.0 <= m1 <= m2 <= 1.0 && 0.0 <= h <= 660.0
    ensures var c := Rgb(ToRgb(m1, m2, h + 120.0), ToRgb(m1, m2, h), ToRgb(m1, m2, h - 120.0));
            && IsByte(c.r) && IsByte(c.g) && IsByte(c.b)
            && Brightest(c) == (m2 * 255.0).Floor && Darkest(c) == (m1 * 255.0).Floor
  {
    hide Level;
    ThreeHues(m1, m2, h);
    ChannelBetween(m1, m2, h + 120.0);
    ChannelBetween(m1, m2, h);
    ChannelBetween(m1, m2, h - 120.0);
  }

  lemma ChannelBetween(m1: real, m2: real, rh: real)
    requires 0.0 <= m1 <= m2 <= 1.0 && -360.0 <= rh
    ensures 0 <= (m1 * 255.0).Floor <= ToRgb(m1, m2, rh) <= (m2 * 255.0).Floor <= 255
  {
    hide Level;
    LevelBetween(m1, m2, rh);
    var x := Level(m1, m2, rh);
    FloorMonotone(0.0, m1 * 255.0);
    FloorMonotone(m1 * 255.0, x * 255.0);
    FloorMonotone(x * 255.0, m2 * 255.0);
    FloorMonotone(m2 * 255.0, 255.0);
  }

  // ----- the generators -------------------------------------------------------

  /** The parameters of a generator. */
  datatype Params = Params(
    realRgb: bool,
    hStart: uint, hEnd: uint, hInt: uint,
    sStart: uint, sEnd: uint, sInt: uint,
    lStart: uint, lEnd: uint, lInt: uint)

  /** The decrement that adding an unsigned step amounts to. */
  function Down(step: uint): int {
    if step == 0 then 0 else MOD - step
  }

  /**
    Saturation and luminosity are bytes and hues are not too large, hue steps up without
    wrapping, saturation and luminosity step down without going below 0, and there is at
    least one hue and one luminosity.
   */
  predicate WellFormed(p: Params) {
    && p.hStart <= p.hEnd <= HUE_LIMIT && p.hEnd + p.hInt < MOD
    && p.sStart <= 255 && Down(p.sInt) <= p.sEnd
    && p.lEnd < p.lStart <= 255 && Down(p.lInt) <= p.lEnd + 1
  }

  /** The header's defaults. */
  lemma DefaultsWellFormed()
    ensures WellFormed(Params(false, 0, 255, 14, 255, 60, MOD - 8, 190, 100, MOD - 3))
  {
  }

  lemma StepDown(x: uint, step: uint)
    requires Down(step) <= x
    ensures Add(x, step) == x - Down(step)
  {
  }

  /**
    The hue and saturation taken after a generator stood at h and s, and where it stands
    then: the next hue, else the first hue of the next saturation, else the very first.
   */
  ghost predicate FollowsOn(p: Params, h: int, s: int, hue: int, sat: int, h': int, s': int) {
    if h <= p.hEnd then hue == h && sat == s && h' == h + p.hInt && s' == s
    else if s >= p.sEnd then hue == h' == p.hStart && sat == s' == s - Down(p.sInt)
    else hue == p.hStart && sat == s' == p.sStart && h' == p.hStart + p.hInt
  }

  class Variant {
    var l: uint
    var lEnd: uint
    var lInt: uint
    var h: uint
    var s: uint
    var realRgb: bool

    constructor (l: uint, lEnd: uint, lInt: uint, h: uint, s: uint, realRgb: bool)
      ensures this.l == l && this.lEnd == lEnd && this.lInt == lInt
      ensures this.h == h && this.s == s && this.realRgb == realRgb
    {
      this.l, this.lEnd, this.lInt, this.h, this.s, this.realRgb := l, lEnd, lInt, h, s, realRgb;
    }

    /** A variant that a generator with parameters p has filled in. */
    predicate Filled(p: Params)
      reads this
    {
      && lEnd == p.lEnd && lInt == p.lInt && realRgb == p.realRgb
      && h <= HUE_LIMIT && s <= 255 && l <= p.lStart
    }

    /** 0 when the luminosities are used up, otherwise the colour of the present one. */
    method GetColor() returns (c: uint)
      requires s <= 255 && l <= 255
      modifies this`l
      ensures old(l) <= lEnd ==> c == 0 && l == old(l)
      ensures old(l) > lEnd ==> l == Add(old(l), lInt) && ColorOf(c, realRgb, h, s, old(l))
    {
      if l <= lEnd {
        return 0;
      }
      var oldL := l;
      l := Add(l, lInt);
      AlwaysBytes(h, s, oldL);
      c := MakeRgb(realRgb, Channels(h, s, oldL));
    }
  }

  class Generator {
    const p: Params
    var h: uint
    var s: uint

    ghost predicate Valid()
      reads this
    {
      WellFormed(p) && h <= p.hEnd + p.hInt && s <= 255
    }

    constructor (p: Params)
      ensures this.p == p && h == p.hStart && s == p.sStart
      ensures WellFormed(p) ==> Valid()
    {
      this.p := p;
      h, s := p.hStart, p.sStart;
    }

    method Rewind()
      modifies this
      ensures h == p.hStart && s == p.sStart
      ensures WellFormed(p) ==> Valid()
    {
      h, s := p.hStart, p.sStart;
    }

    /** The next hue, or the first hue of the next saturation; fails once both are used up. */
    method GetColorvar(cv: Variant) returns (ok: bool)
      modifies this, cv
      ensures ok <==> old(h) <= p.hEnd || old(s) >= p.sEnd
      ensures !ok ==> unchanged(cv) && h == old(h) && s == old(s)
      ensures ok ==> cv.realRgb == p.realRgb && cv.l == p.lStart && cv.lEnd == p.lEnd && cv.lInt == p.lInt
      ensures old(h) <= p.hEnd ==>
                h == Add(old(h), p.hInt) && s == old(s) && cv.h == old(h) && cv.s == old(s)
      ensures ok && old(h) > p.hEnd ==>
                h == p.hStart == cv.h && s == Add(old(s), p.sInt) == cv.s
    {
      var oldH, oldS := h, s;
      if h > p.hEnd {
        if s < p.sEnd {
          return false;
        }
        s := Add(s, p.sInt);
        oldS := s;
        h := p.hStart;
        oldH := h;
      } else {
        h := Add(h, p.hInt);
      }
      cv.realRgb, cv.h, cv.s := p.realRgb, oldH, oldS;
      cv.l, cv.lEnd, cv.lInt := p.lStart, p.lEnd, p.lInt;
      ok := true;
    }

    /** On a well-formed generator neither step wraps, and the variant is filled. */
    method NextVariant(cv: Variant) returns (ok: bool)
      requires Valid()
      modifies this, cv
      ensures Valid()
      ensures ok <==> old(h) <= p.hEnd || old(s) >= p.sEnd
      ensures !ok ==> unchanged(cv)
      ensures !ok ==> h == old(h) && s == old(s)
      ensures ok ==> cv.Filled(p) && cv.l == p.lStart && FollowsOn(p, old(h), old(s), cv.h, cv.s, h, s)
    {
      if h > p.hEnd && s >= p.sEnd {
        StepDown(s, p.sInt);
      }
      ok := GetColorvar(cv);
    }

    /** Always a colour, never 0, after at most two attempts. */
    method GetColorAnyway(cv: Variant) returns (c: uint)
      requires Valid() && cv.Filled(p)
      modifies this, cv
      ensures Valid() && cv.Filled(p) && c != 0
      ensures old(cv.l) > p.lEnd ==>
                && ColorOf(c, p.realRgb, cv.h, cv.s, old(cv.l)) && cv.l == old(cv.l) - Down(p.lInt)
                && cv.h == old(cv.h) && cv.s == old(cv.s) && h == old(h) && s == old(s)
      ensures old(cv.l) <= p.lEnd ==>
                && ColorOf(c, p.realRgb, cv.h, cv.s, p.lStart) && cv.l == p.lStart - Down(p.lInt)
                && FollowsOn(p, old(h), old(s), cv.h, cv.s, h, s)
    {
      hide ColorOf;
      ghost var attempts := 2;
      while true
        invariant Valid() && cv.Filled(p)
        invariant attempts == 2 ==> cv.l == old(cv.l) && cv.h == old(cv.h) && cv.s == old(cv.s) && h == old(h) && s == old(s)
        invariant attempts == 2 ||
                  (attempts == 1 && old(cv.l) <= p.lEnd && cv.l == p.lStart &&
                   FollowsOn(p, old(h), old(s), cv.h, cv.s, h, s))
        decreases attempts
      {
        ghost var L := cv.l;
        if L > p.lEnd {
          StepDown(L, p.lInt);
        }
        c := cv.GetColor();
        if L > p.lEnd {
          NeverZero(c, p.realRgb, cv.h, cv.s, L);
        }
        if c != 0 {
          break;
        }
        var ok := NextVariant(cv);
        if !ok {
          Rewind();
          ok := NextVariant(cv);
        }
        attempts := attempts - 1;
      }
    }

    /** Any number of calls on one variant. */
    method Colors(cv: Variant, n: nat) returns (cs: seq<uint>)
      requires Valid() && cv.Filled(p)
      modifies this, cv
      ensures Valid() && cv.Filled(p)
      ensures |cs| == n && forall i :: 0 <= i < n ==> cs[i] != 0
    {
      cs := [];
      for i := 0 to n
        invariant Valid() && cv.Filled(p)
        invariant |cs| == i && forall k :: 0 <= k < i ==> cs[k] != 0
      {
        var c := GetColorAnyway(cv);
        cs := cs + [c];
      }
    }
  }

  /** c is the colour of hue h, saturation s and luminosity L. */
  ghost predicate ColorOf(c: uint, realRgb: bool, h: uint, s: uint, L: nat) {
    var ch := Channels(h, s, L);
    IsByte(ch.r) && IsByte(ch.g) && IsByte(ch.b) && c == MakeRgb(realRgb, ch)
  }

  lemma NeverZero(c: uint, realRgb: bool, h: uint, s: uint, L: nat)
    requires h <= HUE_LIMIT && s <= 255 && 1 <= L <= 255 && ColorOf(c, realRgb, h, s, L)
    ensures c != 0
  {
    NeverBlack(h, s, L);
    hide Channels;
  }

  // ----- a generator without colours ------------------------------------------

  const DARK := Params(false, HUE_LIMIT + 1, HUE_LIMIT + 1, 1, 255, 255, 0, 1, 0, MOD - 1)

  /**
    Beyond the bound on hues, the loop of get_color_anyway need not end: any number of
    attempts gives 0.
   */
  method DarkAttempts(n: nat) returns (cs: seq<uint>)
    ensures |cs| == n && forall i :: 0 <= i < n ==> cs[i] == 0
  {
    hide Channels;
    var generator := new Generator(DARK);
    var cv := new Variant(DARK.lStart, DARK.lEnd, DARK.lInt, DARK.hStart, DARK.sStart, false);
    cs := [];
    for i := 0 to n
      invariant |cs| == i && forall k :: 0 <= k < i ==> cs[k] == 0
      invariant generator.p == DARK && generator.s == 255 && HUE_LIMIT + 1 <= generator.h <= HUE_LIMIT + 2
      invariant cv.h == HUE_LIMIT + 1 && cv.s == 255 && cv.l <= 1 && cv.lEnd == 0 && cv.lInt == MOD - 1
    {
      BlackBeyond(cv.h);
      var c := cv.GetColor();
      cs := cs + [c];
      var ok := generator.GetColorvar(cv);
      assert ok;
    }
  }
}
