/** The calibration flash: seven records written over an erased image. */
module Flash {
  import opened Bits
  import opened Bytes
  import opened Axis

  const FLASH_SIZE := 0x80000
  const ERASED: byte := 0xFF

  /** The contents of a flash chip. */
  type Image = s: seq<byte> | |s| == FLASH_SIZE witness Fill(FLASH_SIZE, ERASED)

  datatype ImuCal = ImuCal(biasX: i16, biasY: i16, biasZ: i16,
                           sensitivityX: i16, sensitivityY: i16, sensitivityZ: i16)
  datatype StickCal = StickCal(minX: u16, minY: u16, centerX: u16, centerY: u16, maxX: u16, maxY: u16) {
    /** What twelve bits can hold of it. */
    function Low12(): StickCal {
      StickCal(minX % 0x1000, minY % 0x1000, centerX % 0x1000, centerY % 0x1000, maxX % 0x1000, maxY % 0x1000)
    }

    predicate Fits12() {
      minX < 0x1000 && minY < 0x1000 && centerX < 0x1000 && centerY < 0x1000 && maxX < 0x1000 && maxY < 0x1000
    }
  }
  datatype Color = Color(red: byte, green: byte, blue: byte)
  datatype ColorConfig = ColorConfig(body: Color, buttons: Color, leftGrip: Color, rightGrip: Color)
  datatype Offsets = Offsets(x: i16, y: i16, z: i16)
  datatype StickParams = StickParams(unknown0: u16, unknown1: u16, deadzoneInner: u16, deadzoneOuter: u16,
                                     unknown4: u16, unknown5: u16, unknown6: u16, unknown7: u16,
                                     unknown8: u16, unknown9: u16, unknown10: u16, unknown11: u16)
  {
    function Low12(): StickParams {
      StickParams(unknown0 % 0x1000, unknown1 % 0x1000, deadzoneInner % 0x1000, deadzoneOuter % 0x1000,
                  unknown4 % 0x1000, unknown5 % 0x1000, unknown6 % 0x1000, unknown7 % 0x1000,
                  unknown8 % 0x1000, unknown9 % 0x1000, unknown10 % 0x1000, unknown11 % 0x1000)
    }

    predicate Fits12() {
      && unknown0 < 0x1000 && unknown1 < 0x1000 && deadzoneInner < 0x1000 && deadzoneOuter < 0x1000
      && unknown4 < 0x1000 && unknown5 < 0x1000 && unknown6 < 0x1000 && unknown7 < 0x1000
      && unknown8 < 0x1000 && unknown9 < 0x1000 && unknown10 < 0x1000 && unknown11 < 0x1000
    }
  }

  // ----- Encodings -----

  function EncodeImuCal(c: ImuCal): (r: seq<byte>)
    ensures |r| == 12
  {
    Le16(ToU16(c.biasX)) + Le16(ToU16(c.biasY)) + Le16(ToU16(c.biasZ)) +
    Le16(ToU16(c.sensitivityX)) + Le16(ToU16(c.sensitivityY)) + Le16(ToU16(c.sensitivityZ))
  }

  function EncodeStickCalLeft(c: StickCal): (r: seq<byte>)
    ensures |r| == 9
  {
    Pack(c.maxX, c.maxY) + Pack(c.centerX, c.centerY) + Pack(c.minX, c.minY)
  }

  function EncodeStickCalRight(c: StickCal): (r: seq<byte>)
    ensures |r| == 9
  {
    Pack(c.centerX, c.centerY) + Pack(c.minX, c.minY) + Pack(c.maxX, c.maxY)
  }

  function EncodeColor(c: Color): seq<byte> { [c.red, c.green, c.blue] }

  function EncodeColorConfig(c: ColorConfig): (r: seq<byte>)
    ensures |r| == 12
  {
    EncodeColor(c.body) + EncodeColor(c.buttons) + EncodeColor(c.leftGrip) + EncodeColor(c.rightGrip)
  }

  function EncodeOffsets(c: Offsets): (r: seq<byte>)
    ensures |r| == 6
  {
    Le16(ToU16(c.x)) + Le16(ToU16(c.y)) + Le16(ToU16(c.z))
  }

  function EncodeStickParams(c: StickParams): (r: seq<byte>)
    ensures |r| == 18
  {
    Pack(c.unknown0, c.unknown1) + Pack(c.deadzoneInner, c.deadzoneOuter) +
    Pack(c.unknown4, c.unknown5) + Pack(c.unknown6, c.unknown7) +
    Pack(c.unknown8, c.unknown9) + Pack(c.unknown10, c.unknown11)
  }

  // ----- Decodings, as a console reads the regions -----

  function Word(r: seq<byte>, at: nat): i16
    requires at + 2 <= |r|
  {
    ToI16(FromLe16(r[at..at + 2]))
  }

  function DecodeImuCal(r: seq<byte>): ImuCal
    requires |r| == 12
  {
    ImuCal(Word(r, 0), Word(r, 2), Word(r, 4), Word(r, 6), Word(r, 8), Word(r, 10))
  }

  function First(r: seq<byte>, at: nat): u12
    requires at + 3 <= |r|
  {
    UnpackFirst(r[at..at + 3])
  }

  function Second(r: seq<byte>, at: nat): u12
    requires at + 3 <= |r|
  {
    UnpackSecond(r[at..at + 3])
  }

  function DecodeStickCalLeft(r: seq<byte>): StickCal
    requires |r| == 9
  {
    StickCal(First(r, 6), Second(r, 6), First(r, 3), Second(r, 3), First(r, 0), Second(r, 0))
  }

  function DecodeStickCalRight(r: seq<byte>): StickCal
    requires |r| == 9
  {
    StickCal(First(r, 3), Second(r, 3), First(r, 0), Second(r, 0), First(r, 6), Second(r, 6))
  }

  function DecodeColorConfig(r: seq<byte>): ColorConfig
    requires |r| == 12
  {
    ColorConfig(Color(r[0], r[1], r[2]), Color(r[3], r[4], r[5]), Color(r[6], r[7], r[8]), Color(r[9], r[10], r[11]))
  }

  function DecodeOffsets(r: seq<byte>): Offsets
    requires |r| == 6
  {
    Offsets(Word(r, 0), Word(r, 2), Word(r, 4))
  }

  function DecodeStickParams(r: seq<byte>): StickParams
    requires |r| == 18
  {
    StickParams(First(r, 0), Second(r, 0), First(r, 3), Second(r, 3), First(r, 6), Second(r, 6),
                First(r, 9), Second(r, 9), First(r, 12), Second(r, 12), First(r, 15), Second(r, 15))
  }

  lemma WordOf(r: seq<byte>, at: nat, v: i16)
    requires at + 2 <= |r| && r[at..at + 2] == Le16(ToU16(v))
    ensures Word(r, at) == v
  {
  }

  lemma PairOf(r: seq<byte>, at: nat, a: u16, b: u16)
    requires at + 3 <= |r| && r[at..at + 3] == Pack(a, b)
    ensures First(r, at) == a % 0x1000 && Second(r, at) == b % 0x1000
    ensures (a < 0x1000 ==> First(r, at) == a) && (b < 0x1000 ==> Second(r, at) == b)
  {
    PackThenUnpack(a, b);
  }

  lemma ImuCalRoundTrip(c: ImuCal)
    ensures DecodeImuCal(EncodeImuCal(c)) == c
  {
    var r := EncodeImuCal(c);
    WordOf(r, 0, c.biasX);
    WordOf(r, 2, c.biasY);
    WordOf(r, 4, c.biasZ);
    WordOf(r, 6, c.sensitivityX);
    WordOf(r, 8, c.sensitivityY);
    WordOf(r, 10, c.sensitivityZ);
  }

  /** Decoding gives back the low twelve bits of every field. */
  lemma StickCalRoundTrip(c: StickCal)
    ensures DecodeStickCalLeft(EncodeStickCalLeft(c)) == c.Low12()
    ensures DecodeStickCalRight(EncodeStickCalRight(c)) == c.Low12()
    ensures c.Fits12() ==> c.Low12() == c
  {
    var left, right := EncodeStickCalLeft(c), EncodeStickCalRight(c);
    PairOf(left, 0, c.maxX, c.maxY);
    PairOf(left, 3, c.centerX, c.centerY);
    PairOf(left, 6, c.minX, c.minY);
    PairOf(right, 0, c.centerX, c.centerY);
    PairOf(right, 3, c.minX, c.minY);
    PairOf(right, 6, c.maxX, c.maxY);
  }

  lemma OffsetsRoundTrip(c: Offsets)
    ensures DecodeOffsets(EncodeOffsets(c)) == c
  {
    var r := EncodeOffsets(c);
    WordOf(r, 0, c.x);
    WordOf(r, 2, c.y);
    WordOf(r, 4, c.z);
  }

  lemma StickParamsRoundTrip(c: StickParams)
    ensures DecodeStickParams(EncodeStickParams(c)) == c.Low12()
    ensures c.Fits12() ==> c.Low12() == c
  {
    var r := EncodeStickParams(c);
    PairOf(r, 0, c.unknown0, c.unknown1);
    PairOf(r, 3, c.deadzoneInner, c.deadzoneOuter);
    PairOf(r, 6, c.unknown4, c.unknown5);
    PairOf(r, 9, c.unknown6, c.unknown7);
    PairOf(r, 12, c.unknown8, c.unknown9);
    PairOf(r, 15, c.unknown10, c.unknown11);
  }

  // ----- Images built from records -----

  datatype Record = Record(offset: nat, data: seq<byte>) {
    function End(): nat { offset + |data| }
    predicate Covers(i: int) { offset <= i < End() }
    predicate Apart(other: Record) { End() <= other.offset || other.End() <= offset }
  }

  predicate Fits(records: seq<Record>, size: nat) {
    forall k :: 0 <= k < |records| ==> records[k].End() <= size
  }

  predicate Disjoint(records: seq<Record>) {
    forall j, k :: 0 <= j < |records| && 0 <= k < |records| && j != k ==> records[j].Apart(records[k])
  }

  /** The image after writing the records in order. */
  function Program(image: seq<byte>, records: seq<Record>): (r: seq<byte>)
    requires Fits(records, |image|)
    ensures |r| == |image|
  {
    if records == [] then image
    else
      var last := records[|records| - 1];
      Patch(Program(image, records[..|records| - 1]), last.offset, last.data)
  }

  /** Disjoint records all survive: a byte is that of the record covering it, else untouched. */
  lemma {:induction false} CoveredByte(image: seq<byte>, records: seq<Record>, k: nat, i: int)
    requires Fits(records, |image|) && Disjoint(records) && k < |records| && records[k].Covers(i)
    ensures Program(image, records)[i] == records[k].data[i - records[k].offset]
  {
    var n := |records| - 1;
    PatchAt(Program(image, records[..n]), records[n].offset, records[n].data, i);
    if k < n {
      assert records[k].Apart(records[n]);
      assert records[..n][k] == records[k];
      CoveredByte(image, records[..n], k, i);
    }
  }

  lemma {:induction false} UncoveredByte(image: seq<byte>, records: seq<Record>, i: int)
    requires Fits(records, |image|) && 0 <= i < |image|
    requires forall k :: 0 <= k < |records| ==> !records[k].Covers(i)
    ensures Program(image, records)[i] == image[i]
  {
    if records != [] {
      var n := |records| - 1;
      assert !records[n].Covers(i);
      PatchAt(Program(image, records[..n]), records[n].offset, records[n].data, i);
      UncoveredByte(image, records[..n], i);
    }
  }

  /** Reading a record's region gives the record. */
  lemma RegionIsRecord(image: seq<byte>, records: seq<Record>, k: nat)
    requires Fits(records, |image|) && Disjoint(records) && k < |records|
    ensures Program(image, records)[records[k].offset..records[k].offset + |records[k].data|] == records[k].data
  {
    var r := records[k];
    forall i | 0 <= i < |r.data| ensures Program(image, records)[r.offset + i] == r.data[i] {
      CoveredByte(image, records, k, r.offset + i);
    }
  }

  // ----- The controller's flash -----

  const ACCEL_CAL := ImuCal(0, 0, 0, 16384, 16384, 16384)
  const GYRO_CAL := ImuCal(0, 0, 0, 13371, 13371, 13371)
  const STICK_CAL := StickCal(STICK_MAGNITUDE_MIN, STICK_MAGNITUDE_MIN, STICK_CENTER, STICK_CENTER,
                              STICK_MAGNITUDE_MAX, STICK_MAGNITUDE_MAX)
  const COLOR_CONFIG := ColorConfig(Color(0, 0, 0), Color(0xFF, 0xFF, 0xFF), Color(0xFE, 0x9B, 0), Color(0xFE, 0x9B, 0))
  const HORIZONTAL_OFFSETS := Offsets(0, 0, 0)

  function Params(inner: u12, outer: u12): StickParams {
    StickParams(0x00F, 0x613, inner, outer, 0x4D4, 0x541, 0x541, 0x541, 0x9C7, 0x9C7, 0x633, 0x633)
  }

  const ACCEL_AT := 0x6020
  const GYRO_AT := 0x602C
  const STICK_LEFT_AT := 0x603D
  const STICK_RIGHT_AT := 0x6046
  const COLOR_AT := 0x6050
  const OFFSETS_AT := 0x6080
  const PARAMS_AT := 0x6086

  function Records(inner: u12, outer: u12): (r: seq<Record>)
    ensures |r| == 7 && Fits(r, FLASH_SIZE) && Disjoint(r)
  {
    [Record(ACCEL_AT, EncodeImuCal(ACCEL_CAL)),
     Record(GYRO_AT, EncodeImuCal(GYRO_CAL)),
     Record(STICK_LEFT_AT, EncodeStickCalLeft(STICK_CAL)),
     Record(STICK_RIGHT_AT, EncodeStickCalRight(STICK_CAL)),
     Record(COLOR_AT, EncodeColorConfig(COLOR_CONFIG)),
     Record(OFFSETS_AT, EncodeOffsets(HORIZONTAL_OFFSETS)),
     Record(PARAMS_AT, EncodeStickParams(Params(inner, outer)))]
  }

  /** The flash of a new controller. */
  function FlashImage(inner: u12, outer: u12): Image {
    Program(Fill(FLASH_SIZE, ERASED), Records(inner, outer))
  }

  /** Every byte belongs to exactly one record, or is erased. */
  lemma FlashBytes(inner: u12, outer: u12, i: int)
    requires 0 <= i < FLASH_SIZE
    ensures var records := Records(inner, outer);
            if exists k :: 0 <= k < 7 && records[k].Covers(i) then
              exists k :: 0 <= k < 7 && records[k].Covers(i) &&
                FlashImage(inner, outer)[i] == records[k].data[i - records[k].offset] &&
                forall j :: 0 <= j < 7 && records[j].Covers(i) ==> j == k
            else FlashImage(inner, outer)[i] == ERASED
  {
    var records := Records(inner, outer);
    if k :| 0 <= k < 7 && records[k].Covers(i) {
      CoveredByte(Fill(FLASH_SIZE, ERASED), records, k, i);
      assert forall j :: 0 <= j < 7 && j != k ==> records[j].Apart(records[k]);
    } else {
      UncoveredByte(Fill(FLASH_SIZE, ERASED), records, i);
    }
  }

  // ----- Filling the image in place -----

  /** `flash_write`: the end is computed in 32 bits and checked for wrap-around. */
  method FlashWrite(flash: array<byte>, offset: u32, data: array<byte>) returns (ok: bool)
    requires flash.Length == FLASH_SIZE && data != flash
    modifies flash
    ensures ok <==> offset + data.Length <= FLASH_SIZE
    ensures flash[..] == if ok then Patch(old(flash[..]), offset, data[..]) else old(flash[..])
  {
    var size := data.Length;
    var end := WrapU32(offset + size);
    if size > 0xFFFF_FFFF || end < offset || end > FLASH_SIZE {
      return false;
    }
    WrappedEnd(offset, size);
    forall i | 0 <= i < size {
      flash[offset + i] := data[i];
    }
    return true;
  }

  /** The wrap-around check is exact: it passes precisely when the true end is in range. */
  lemma WrappedEnd(offset: u32, size: nat)
    requires size <= 0xFFFF_FFFF
    ensures WrapU32(offset + size) >= offset && WrapU32(offset + size) <= FLASH_SIZE <==> offset + size <= FLASH_SIZE
  {
  }

  function Region(image: seq<byte>, at: nat, size: nat): (r: seq<byte>)
    requires at + size <= |image|
    ensures |r| == size
  {
    image[at..at + size]
  }

  lemma RecordRegion(inner: u12, outer: u12, k: nat)
    requires k < 7
    ensures var r := Records(inner, outer)[k];
            Region(FlashImage(inner, outer), r.offset, |r.data|) == r.data
  {
    RegionIsRecord(Fill(FLASH_SIZE, ERASED), Records(inner, outer), k);
  }

  lemma StickRegions(inner: u12, outer: u12)
    ensures Region(FlashImage(inner, outer), STICK_LEFT_AT, 9) == EncodeStickCalLeft(STICK_CAL)
    ensures Region(FlashImage(inner, outer), STICK_RIGHT_AT, 9) == EncodeStickCalRight(STICK_CAL)
  {
    RecordRegion(inner, outer, 2);
    RecordRegion(inner, outer, 3);
  }

  lemma MotionRegions(inner: u12, outer: u12)
    ensures Region(FlashImage(inner, outer), ACCEL_AT, 12) == EncodeImuCal(ACCEL_CAL)
    ensures Region(FlashImage(inner, outer), GYRO_AT, 12) == EncodeImuCal(GYRO_CAL)
    ensures Region(FlashImage(inner, outer), OFFSETS_AT, 6) == EncodeOffsets(HORIZONTAL_OFFSETS)
  {
    RecordRegion(inner, outer, 0);
    RecordRegion(inner, outer, 1);
    RecordRegion(inner, outer, 5);
  }

  lemma OtherRegions(inner: u12, outer: u12)
    ensures Region(FlashImage(inner, outer), COLOR_AT, 12) == EncodeColorConfig(COLOR_CONFIG)
    ensures Region(FlashImage(inner, outer), PARAMS_AT, 18) == EncodeStickParams(Params(inner, outer))
  {
    RecordRegion(inner, outer, 4);
    RecordRegion(inner, outer, 6);
  }

  /** Values that fit twelve bits come back unchanged. */
  lemma DecodesStickCal(left: seq<byte>, right: seq<byte>, c: StickCal)
    requires left == EncodeStickCalLeft(c) && right == EncodeStickCalRight(c) && c.Fits12()
    ensures DecodeStickCalLeft(left) == c && DecodeStickCalRight(right) == c
  {
    StickCalRoundTrip(c);
  }

  lemma DecodesParams(r: seq<byte>, c: StickParams)
    requires r == EncodeStickParams(c) && c.Fits12()
    ensures DecodeStickParams(r) == c
  {
    StickParamsRoundTrip(c);
  }

  /** The stick calibration a console decodes is the configured one, on both sides. */
  lemma FlashDecodesSticks(inner: u12, outer: u12)
    ensures DecodeStickCalLeft(Region(FlashImage(inner, outer), STICK_LEFT_AT, 9)) == STICK_CAL
    ensures DecodeStickCalRight(Region(FlashImage(inner, outer), STICK_RIGHT_AT, 9)) == STICK_CAL
  {
    StickRegions(inner, outer);
    var image := FlashImage(inner, outer);
    DecodesStickCal(Region(image, STICK_LEFT_AT, 9), Region(image, STICK_RIGHT_AT, 9), STICK_CAL);
  }

  lemma FlashDecodesMotion(inner: u12, outer: u12)
    ensures DecodeImuCal(Region(FlashImage(inner, outer), ACCEL_AT, 12)) == ACCEL_CAL
    ensures DecodeImuCal(Region(FlashImage(inner, outer), GYRO_AT, 12)) == GYRO_CAL
    ensures DecodeOffsets(Region(FlashImage(inner, outer), OFFSETS_AT, 6)) == HORIZONTAL_OFFSETS
  {
    MotionRegions(inner, outer);
    ImuCalRoundTrip(ACCEL_CAL);
    ImuCalRoundTrip(GYRO_CAL);
    OffsetsRoundTrip(HORIZONTAL_OFFSETS);
  }

  lemma FlashDecodesOthers(inner: u12, outer: u12)
    ensures DecodeColorConfig(Region(FlashImage(inner, outer), COLOR_AT, 12)) == COLOR_CONFIG
    ensures DecodeStickParams(Region(FlashImage(inner, outer), PARAMS_AT, 18)) == Params(inner, outer)
  {
    OtherRegions(inner, outer);
    DecodesParams(Region(FlashImage(inner, outer), PARAMS_AT, 18), Params(inner, outer));
  }

  method WriteU16le(data: array<byte>, at: nat, a: u16)
    requires at + 2 <= data.Length
    modifies data
    ensures data[..] == Patch(old(data[..]), at, Le16(a))
  {
    LowByte(a);
    ShrIsDiv(a, 8);
    assert Pow2(8) == 0x100;
    LowByte(a / 0x100);
    data[at] := And(a, 0xFF);
    data[at + 1] := And(Shr(a, 8), 0xFF);
  }

  method EncodeImuCalInto(data: array<byte>, c: ImuCal)
    requires data.Length == 12
    modifies data
    ensures data[..] == EncodeImuCal(c)
  {
    WriteU16le(data, 0, ToU16(c.biasX));
    WriteU16le(data, 2, ToU16(c.biasY));
    WriteU16le(data, 4, ToU16(c.biasZ));
    assert data[..6] == Le16(ToU16(c.biasX)) + Le16(ToU16(c.biasY)) + Le16(ToU16(c.biasZ));
    ghost var biases := data[..6];
    WriteU16le(data, 6, ToU16(c.sensitivityX));
    WriteU16le(data, 8, ToU16(c.sensitivityY));
    WriteU16le(data, 10, ToU16(c.sensitivityZ));
    assert data[..6] == biases;
  }

  method EncodeStickCalLeftInto(data: array<byte>, c: StickCal)
    requires data.Length == 9
    modifies data
    ensures data[..] == EncodeStickCalLeft(c)
  {
    WriteTwoU12le(data, 0, c.maxX, c.maxY);
    WriteTwoU12le(data, 3, c.centerX, c.centerY);
    WriteTwoU12le(data, 6, c.minX, c.minY);
  }

  method EncodeStickCalRightInto(data: array<byte>, c: StickCal)
    requires data.Length == 9
    modifies data
    ensures data[..] == EncodeStickCalRight(c)
  {
    WriteTwoU12le(data, 0, c.centerX, c.centerY);
    WriteTwoU12le(data, 3, c.minX, c.minY);
    WriteTwoU12le(data, 6, c.maxX, c.maxY);
  }

  method EncodeColorConfigInto(data: array<byte>, c: ColorConfig)
    requires data.Length == 12
    modifies data
    ensures data[..] == EncodeColorConfig(c)
  {
    data[0], data[1], data[2] := c.body.red, c.body.green, c.body.blue;
    data[3], data[4], data[5] := c.buttons.red, c.buttons.green, c.buttons.blue;
    data[6], data[7], data[8] := c.leftGrip.red, c.leftGrip.green, c.leftGrip.blue;
    data[9], data[10], data[11] := c.rightGrip.red, c.rightGrip.green, c.rightGrip.blue;
  }

  method EncodeOffsetsInto(data: array<byte>, c: Offsets)
    requires data.Length == 6
    modifies data
    ensures data[..] == EncodeOffsets(c)
  {
    WriteU16le(data, 0, ToU16(c.x));
    WriteU16le(data, 2, ToU16(c.y));
    WriteU16le(data, 4, ToU16(c.z));
  }

  method EncodeStickParamsInto(data: array<byte>, c: StickParams)
    requires data.Length == 18
    modifies data
    ensures data[..] == EncodeStickParams(c)
  {
    WriteTwoU12le(data, 0, c.unknown0, c.unknown1);
    WriteTwoU12le(data, 3, c.deadzoneInner, c.deadzoneOuter);
    WriteTwoU12le(data, 6, c.unknown4, c.unknown5);
    ghost var front := data[..9];
    assert front == Pack(c.unknown0, c.unknown1) + Pack(c.deadzoneInner, c.deadzoneOuter) +
                    Pack(c.unknown4, c.unknown5);
    WriteTwoU12le(data, 9, c.unknown6, c.unknown7);
    WriteTwoU12le(data, 12, c.unknown8, c.unknown9);
    WriteTwoU12le(data, 15, c.unknown10, c.unknown11);
    assert data[..9] == front;
  }

  /** The flash part of `init`: encodes each record and writes it at its address. */
  method InitFlash(flash: array<byte>, inner: u12, outer: u12) returns (ok: bool)
    requires flash.Length == FLASH_SIZE && flash[..] == Fill(FLASH_SIZE, ERASED)
    modifies flash
    ensures ok && flash[..] == FlashImage(inner, outer)
  {
    ghost var records := Records(inner, outer);
    ghost var erased := flash[..];
    var imuCal := new byte[12];
    EncodeImuCalInto(imuCal, ACCEL_CAL);
    ok := WriteRecord(flash, ACCEL_AT, imuCal, erased, records, 0);
    if !ok { return; }
    EncodeImuCalInto(imuCal, GYRO_CAL);
    ok := WriteRecord(flash, GYRO_AT, imuCal, erased, records, 1);
    if !ok { return; }
    var stickCal := new byte[9];
    EncodeStickCalLeftInto(stickCal, STICK_CAL);
    ok := WriteRecord(flash, STICK_LEFT_AT, stickCal, erased, records, 2);
    if !ok { return; }
    EncodeStickCalRightInto(stickCal, STICK_CAL);
    ok := WriteRecord(flash, STICK_RIGHT_AT, stickCal, erased, records, 3);
    if !ok { return; }
    var colorConfig := new byte[12];
    EncodeColorConfigInto(colorConfig, COLOR_CONFIG);
    ok := WriteRecord(flash, COLOR_AT, colorConfig, erased, records, 4);
    if !ok { return; }
    var offsets := new byte[6];
    EncodeOffsetsInto(offsets, HORIZONTAL_OFFSETS);
    ok := WriteRecord(flash, OFFSETS_AT, offsets, erased, records, 5);
    if !ok { return; }
    var stickParams := new byte[18];
    EncodeStickParamsInto(stickParams, Params(inner, outer));
    ok := WriteRecord(flash, PARAMS_AT, stickParams, erased, records, 6);
    assert records[..7] == records;
  }

  method WriteRecord(flash: array<byte>, offset: u32, data: array<byte>,
                     ghost image: seq<byte>, ghost records: seq<Record>, ghost k: nat) returns (ok: bool)
    requires flash.Length == FLASH_SIZE == |image| && data != flash
    requires Fits(records, FLASH_SIZE) && k < |records| && records[k] == Record(offset, data[..])
    requires flash[..] == Program(image, records[..k])
    modifies flash
    ensures ok && flash[..] == Program(image, records[..k + 1])
  {
    assert records[k].End() <= FLASH_SIZE;
    assert records[..k + 1][..k] == records[..k];
    ok := FlashWrite(flash, offset, data);
  }
}
