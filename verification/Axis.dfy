/** Stick axes: scaling int16 to 12 bits, and packing two 12-bit values into three bytes. */
module Axis {
  import opened Bits
  import opened Bytes

  const STICK_MIN := 0
  const STICK_CENTER := 4095 / 2 + 1
  const STICK_MAX := 4095
  const STICK_MAGNITUDE_MIN := STICK_CENTER - STICK_MIN
  const STICK_MAGNITUDE_MAX := STICK_MAX - STICK_CENTER
  const INT16_MAX := 32767
  const INT16_MIN := -32768

  // ----- Packing -----

  /** Two 12-bit values in three bytes, little-endian, low nibbles first. */
  function Pack(a: u16, b: u16): (r: seq<byte>)
    ensures |r| == 3
  {
    [a % 0x100, a / 0x100 % 0x10 + b % 0x10 * 0x10, b / 0x10 % 0x100]
  }

  /** The shifts and masks of the code, as arithmetic. */
  lemma PackOperators(a: u16, b: u16)
    ensures And(a, 0xFF) == a % 0x100
    ensures Or(And(Shr(a, 8), 0xF), Shl(And(b, 0xF), 4)) == a / 0x100 % 0x10 + b % 0x10 * 0x10
    ensures And(Shr(b, 4), 0xFF) == b / 0x10 % 0x100
  {
    LowByte(a);
    LowNibble(b);
    ShrIsDiv(a, 8);
    ShrIsDiv(b, 4);
    assert Pow2(8) == 0x100 && Pow2(4) == 0x10;
    LowNibble(a / 0x100);
    LowByte(b / 0x10);
    ShlIsTimes(b % 0x10, 4);
    OrDisjoint(a / 0x100 % 0x10, b % 0x10, 4);
  }

  lemma LowByte(x: nat)
    ensures And(x, 0xFF) == x % 0x100
  {
    assert Pow2(8) == 0x100;
    AndLowMask(x, 8);
    LowIsMod(x, 8);
  }

  lemma LowNibble(x: nat)
    ensures And(x, 0xF) == x % 0x10
  {
    assert Pow2(4) == 0x10;
    AndLowMask(x, 4);
    LowIsMod(x, 4);
  }

  function UnpackFirst(p: seq<byte>): u12
    requires |p| == 3
  {
    var low: int, high: int := p[0], p[1];
    low + high % 0x10 * 0x100
  }

  function UnpackSecond(p: seq<byte>): u12
    requires |p| == 3
  {
    var low: int, high: int := p[1], p[2];
    low / 0x10 + high * 0x10
  }

  /** Unpacking returns the low 12 bits of both values. */
  lemma PackThenUnpack(a: u16, b: u16)
    ensures UnpackFirst(Pack(a, b)) == a % 0x1000
    ensures UnpackSecond(Pack(a, b)) == b % 0x1000
  {
    Nibbles(a / 0x100 % 0x10, b % 0x10);
    SplitU12(a);
    SplitU12(b);
  }

  lemma SplitU12(a: int)
    requires a >= 0
    ensures a % 0x1000 == a % 0x100 + a / 0x100 % 0x10 * 0x100
    ensures a % 0x1000 == a % 0x10 + a / 0x10 % 0x100 * 0x10
  {
    Remainder(a, a / 0x100 / 0x10, a % 0x100 + a / 0x100 % 0x10 * 0x100);
    Remainder(a, a / 0x10 / 0x100, a % 0x10 + a / 0x10 % 0x100 * 0x10);
  }

  lemma Remainder(a: int, q: int, r: int)
    requires a == q * 0x1000 + r && 0 <= r < 0x1000
    ensures a % 0x1000 == r
  {
  }

  lemma Nibbles(mid: int, carry: int)
    requires 0 <= mid < 0x10 && 0 <= carry < 0x10
    ensures (mid + carry * 0x10) % 0x10 == mid && (mid + carry * 0x10) / 0x10 == carry
  {
  }

  /** Every three bytes are the packing of what they unpack to. */
  lemma UnpackThenPack(p: seq<byte>)
    requires |p| == 3
    ensures Pack(UnpackFirst(p), UnpackSecond(p)) == p
  {
    Halves(p[0], p[1] % 0x10);
    Halves2(p[1] / 0x10, p[2]);
  }

  lemma Halves(low: int, high: int)
    requires 0 <= low < 0x100 && 0 <= high < 0x10
    ensures (low + high * 0x100) % 0x100 == low && (low + high * 0x100) / 0x100 % 0x10 == high
  {
  }

  lemma Halves2(low: int, high: int)
    requires 0 <= low < 0x10 && 0 <= high < 0x100
    ensures (low + high * 0x10) % 0x10 == low && (low + high * 0x10) / 0x10 % 0x100 == high
  {
  }

  method WriteTwoU12le(data: array<byte>, at: nat, a: u16, b: u16)
    requires at + 3 <= data.Length
    modifies data
    ensures data[..] == Patch(old(data[..]), at, Pack(a, b))
  {
    PackOperators(a, b);
    data[at] := And(a, 0xFF);
    data[at + 1] := Or(And(Shr(a, 8), 0xF), Shl(And(b, 0xF), 4));
    data[at + 2] := And(Shr(b, 4), 0xFF);
  }

  // ----- Scaling -----

  /** C division: toward zero. */
  function TruncDiv(n: int, d: int): int
    requires d != 0
  {
    if n >= 0 then (if d > 0 then n / d else -(n / -d))
    else if d > 0 then -(-n / d)
    else -n / -d
  }

  function AxisRaw(value: i16): (raw: u16)
    ensures raw <= STICK_MAX
  {
    AxisInRange(value);
    if value >= 0 then STICK_CENTER + TruncDiv(value as int * STICK_MAGNITUDE_MAX, INT16_MAX)
    else STICK_CENTER - TruncDiv(value as int * STICK_MAGNITUDE_MIN, INT16_MIN)
  }

  lemma AxisInRange(value: i16)
    ensures value >= 0 ==> 0 <= TruncDiv(value as int * STICK_MAGNITUDE_MAX, INT16_MAX) <= STICK_MAGNITUDE_MAX
    ensures value < 0 ==> 0 <= TruncDiv(value as int * STICK_MAGNITUDE_MIN, INT16_MIN) <= STICK_MAGNITUDE_MIN
  {
  }

  /** One side of an axis: magnitudes 0..n scaled to 0..m. */
  function Scale(v: int, m: int, n: int): int
    requires 0 <= v && 0 < m && 0 < n
  {
    v * m / n
  }

  lemma ScaleFloor(v: int, m: int, n: int)
    requires 0 <= v && 0 < m && 0 < n
    ensures Scale(v, m, n) * n <= v * m < (Scale(v, m, n) + 1) * n
    ensures Scale(v, m, n) >= 0
  {
  }

  lemma FloorUnique(x: int, n: int, q: int)
    requires n > 0 && q * n <= x < (q + 1) * n
    ensures x / n == q
  {
    var r := x - q * n;
    if x >= 0 && q >= 0 {
      DivModUnique(x, n, q, r);
    } else {
      assert (x / n - q) * n == r - x % n by {
        assert x == x / n * n + x % n;
        Distribute(x / n, q, n);
      }
      SmallMultipleIsZero(x / n - q, n, r - x % n);
    }
  }

  lemma ScaleMonotone(u: int, v: int, m: int, n: int)
    requires 0 <= u <= v && 0 < m && 0 < n
    ensures Scale(u, m, n) <= Scale(v, m, n)
  {
    Distribute(v, u, m);
    ScaleFloor(u, m, n);
    ScaleFloor(v, m, n);
    assert (v - u) * m >= 0;
    Distribute(Scale(u, m, n), Scale(v, m, n) + 1, n);
    MulPositive(Scale(u, m, n) - (Scale(v, m, n) + 1), n);
  }

  lemma MulPositive(a: int, n: int)
    requires n > 0
    ensures a >= 0 ==> a * n >= 0
  {
  }

  /** A side that does not stretch reaches every magnitude, with this preimage. */
  lemma ScaleOnto(q: int, m: int, n: int) returns (v: int)
    requires 0 < m <= n && 0 <= q <= m
    ensures 0 <= v <= n && Scale(v, m, n) == q
  {
    // the least v with v * m >= q * n
    MulPositive(q, n);
    v := CeilDiv(q * n, m);
    CeilInRange(v, q, m, n);
    Distribute(q + 1, q, n);
    FloorUnique(v * m, n, q);
  }

  lemma CeilDiv(x: int, m: int) returns (v: int)
    requires 0 <= x && 0 < m
    ensures x <= v * m < x + m
  {
    v := (x + m - 1) / m;
  }

  lemma CeilInRange(v: int, q: int, m: int, n: int)
    requires 0 < m && 0 < n && 0 <= q <= m && q * n <= v * m < q * n + m && 0 <= q * n
    ensures 0 <= v <= n
  {
    Distribute(m, q, n);
    MulPositive(m - q, n);
    Distribute(v, n + 1, m);
    MulPositive(v - (n + 1), m);
    if v < 0 {
      MulNegative(v, m);
    }
  }

  lemma MulNegative(v: int, m: int)
    requires v < 0 < m
    ensures v * m < 0
  {
  }

  lemma ScaleEnds(m: int, n: int)
    requires 0 < m && 0 < n
    ensures Scale(0, m, n) == 0 && Scale(n, m, n) == m
  {
    FloorUnique(n * m, n, m);
  }

  /** The code's scaling is Scale on each side of the centre. */
  lemma AxisIsScale(value: i16)
    ensures value >= 0 ==> AxisRaw(value) == STICK_CENTER + Scale(value, STICK_MAGNITUDE_MAX, INT16_MAX)
    ensures value < 0 ==> AxisRaw(value) == STICK_CENTER - Scale(-(value as int), STICK_MAGNITUDE_MIN, -INT16_MIN)
  {
    AxisInRange(value);
    if value < 0 {
      TruncDivNegatives(value as int * STICK_MAGNITUDE_MIN, INT16_MIN);
      assert -(value as int * STICK_MAGNITUDE_MIN) == -(value as int) * STICK_MAGNITUDE_MIN;
    }
  }

  lemma TruncDivNegatives(n: int, d: int)
    requires n < 0 && d < 0
    ensures TruncDiv(n, d) == -n / -d
  {
  }

  lemma AxisMonotone(u: i16, v: i16)
    requires u <= v
    ensures AxisRaw(u) <= AxisRaw(v)
  {
    AxisIsScale(u);
    AxisIsScale(v);
    AxisInRange(u);
    AxisInRange(v);
    if u >= 0 {
      ScaleMonotone(u, v, STICK_MAGNITUDE_MAX, INT16_MAX);
    } else if v < 0 {
      ScaleMonotone(-(v as int), -(u as int), STICK_MAGNITUDE_MIN, -INT16_MIN);
    }
  }

  /** Every 12-bit value is the image of some stick position. */
  lemma AxisOnto(raw: u12) returns (v: i16)
    ensures AxisRaw(v) == raw
  {
    if raw >= STICK_CENTER {
      v := ScaleOnto(raw - STICK_CENTER, STICK_MAGNITUDE_MAX, INT16_MAX);
    } else {
      var w := ScaleOnto(STICK_CENTER - raw, STICK_MAGNITUDE_MIN, -INT16_MIN);
      if w == 0 {
        ScaleEnds(STICK_MAGNITUDE_MIN, -INT16_MIN);
      }
      v := -w;
    }
    AxisIsScale(v);
  }

  /** Endpoints and centre are exact, and the products stay inside int32. */
  lemma AxisFixedPoints(value: i16)
    ensures AxisRaw(-32768) == 0 && AxisRaw(0) == 2048 && AxisRaw(32767) == 4095
    ensures -0x8000_0000 <= value as int * STICK_MAGNITUDE_MAX < 0x8000_0000
    ensures -0x8000_0000 <= value as int * STICK_MAGNITUDE_MIN < 0x8000_0000
  {
  }

  /** Opposite deflections mirror each other up to one step. */
  lemma AxisSymmetry(v: i16)
    requires 1 <= v
    ensures AxisRaw(v) + AxisRaw(-v) in {4095, 4096}
  {
    AxisIsScale(v);
    AxisIsScale(-v);
    NearlyEqualSlopes(v, Scale(v, STICK_MAGNITUDE_MAX, INT16_MAX), Scale(v, STICK_MAGNITUDE_MIN, -INT16_MIN));
  }

  lemma NearlyEqualSlopes(v: int, q: int, r: int)
    requires 1 <= v <= INT16_MAX
    requires q == Scale(v, STICK_MAGNITUDE_MAX, INT16_MAX) && r == Scale(v, STICK_MAGNITUDE_MIN, -INT16_MIN)
    ensures 0 <= r - q <= 1
  {
    ScaleFloor(v, STICK_MAGNITUDE_MAX, INT16_MAX);
    ScaleFloor(v, STICK_MAGNITUDE_MIN, -INT16_MIN);
    assert 32767 * q <= 2047 * v < 32767 * q + 32767;
    assert 32768 * r <= 2048 * v < 32768 * r + 32768;
  }

  // ----- The console's side -----

  /** Calibrated value of a raw axis: each side scaled linearly from its calibrated
      magnitude to the int16 magnitude of that side. */
  function Normalise(raw: int, min: int, center: int, max: int): int
    requires min > 0 && max > 0
  {
    if raw >= center then Scale(raw - center, INT16_MAX, max)
    else -Scale(center - raw, -INT16_MIN, min)
  }

  /** Scaling and normalising recovers the position within 17, on its own side of the
      centre, and the endpoints and the centre exactly. */
  lemma NormaliseRecovers(value: i16)
    ensures var back := Normalise(AxisRaw(value), STICK_MAGNITUDE_MIN, STICK_CENTER, STICK_MAGNITUDE_MAX);
            && -17 <= back - value <= 17
            && (value >= 0 ==> 0 <= back <= value)
            && (value <= 0 ==> value <= back <= 0)
            && (value in {INT16_MIN, 0, INT16_MAX} ==> back == value)
  {
    AxisIsScale(value);
    if value >= 0 {
      RightSide(AxisRaw(value), value);
    } else {
      LeftSide(AxisRaw(value), -(value as int));
    }
  }

  lemma RightSide(raw: int, v: int)
    requires 0 <= v <= INT16_MAX && raw == STICK_CENTER + Scale(v, STICK_MAGNITUDE_MAX, INT16_MAX)
    ensures var back := Normalise(raw, STICK_MAGNITUDE_MIN, STICK_CENTER, STICK_MAGNITUDE_MAX);
            v - 17 <= back <= v && 0 <= back && (v in {0, INT16_MAX} ==> back == v)
  {
    ThereAndBack(v, STICK_MAGNITUDE_MAX, INT16_MAX);
    ScaleFloor(raw - STICK_CENTER, INT16_MAX, STICK_MAGNITUDE_MAX);
  }

  lemma LeftSide(raw: int, m: int)
    requires 0 < m <= -INT16_MIN && raw == STICK_CENTER - Scale(m, STICK_MAGNITUDE_MIN, -INT16_MIN)
    ensures var back := Normalise(raw, STICK_MAGNITUDE_MIN, STICK_CENTER, STICK_MAGNITUDE_MAX);
            m - 17 <= -back <= m && 0 <= -back && (m == -INT16_MIN ==> -back == m)
  {
    ThereAndBack(m, STICK_MAGNITUDE_MIN, -INT16_MIN);
    if raw == STICK_CENTER {
      ScaleEnds(INT16_MAX, STICK_MAGNITUDE_MAX);
      ScaleEnds(-INT16_MIN, STICK_MAGNITUDE_MIN);
    } else {
      ScaleFloor(STICK_CENTER - raw, -INT16_MIN, STICK_MAGNITUDE_MIN);
    }
  }

  /** Shrinking a magnitude from 0..n to 0..m and stretching it back loses less than n/m + 1. */
  lemma ThereAndBack(v: int, m: int, n: int)
    requires 0 <= v <= n && 0 < m && 0 < n <= 16 * m + m
    ensures var q := Scale(v, m, n);
            q >= 0 && v - 17 <= Scale(q, n, m) <= v &&
            (v in {0, n} ==> Scale(q, n, m) == v)
  {
    var q := Scale(v, m, n);
    ScaleFloor(v, m, n);
    var back := Scale(q, n, m);
    ScaleFloor(q, n, m);
    ScaleEnds(m, n);
    ScaleEnds(n, m);
    // back * m <= q * n <= v * m
    Distribute(back, v + 1, m);
    MulPositive(back - (v + 1), m);
    Distribute(v, 0, m);
    Distribute(q + 1, q, n);
    Distribute(v - 18, back, m);
    MulPositive(v - 18 - back, m);
    Distribute(v, 18, m);
    Distribute(back + 1, back, m);
    Distribute(v + 1, v, m);
  }
}
